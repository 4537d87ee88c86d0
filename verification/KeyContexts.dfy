/** Contextual bindings of config/binds.go: sections for accounts and folders, and their cache. */
module KeyContexts {
  import opened Prelude
  import opened KeyBinds
  import opened KeyLayers

  // ---------- the counters behind the shortcut ----------

  function CountSections(secs: seq<Section>, t: ContextType): nat {
    if secs == [] then 0
    else (if secs[0].contextType == t then 1 else 0) + CountSections(secs[1..], t)
  }

  /** contextualCounts tells how many contextual sections of each type there are. */
  ghost predicate Counted(l: Layer) {
    forall t :: CountOf(l.counts, t) == CountSections(l.contextual, t)
  }

  lemma {:induction false} CountConcat(a: seq<Section>, b: seq<Section>, t: ContextType)
    ensures CountSections(a + b, t) == CountSections(a, t) + CountSections(b, t)
  {
    if a == [] {
      assert a + b == b;
    } else {
      ConcatTail(a, b);
      CountConcat(a[1..], b, t);
    }
  }

  /** Merging keeps the counters right. */
  lemma {:induction false} MergeKeepsCounts(layers: seq<Layer>)
    requires layers != [] && forall i :: 0 <= i < |layers| ==> Counted(layers[i])
    ensures Counted(Merged(layers))
  {
    forall t ensures CountOf(AllCounts(layers), t) == CountSections(AllContextual(layers), t) {
      AllCounted(layers, t);
    }
  }

  lemma {:induction false} AllCounted(layers: seq<Layer>, t: ContextType)
    requires forall i :: 0 <= i < |layers| ==> Counted(layers[i])
    ensures CountOf(AllCounts(layers), t) == CountSections(AllContextual(layers), t)
  {
    if layers != [] {
      AllCounted(layers[1..], t);
      CountConcat(layers[0].contextual, AllContextual(layers[1..]), t);
      assert Counted(layers[0]);
    }
  }

  /** What LoadBinds does with one more contextual section. */
  function WithSection(l: Layer, s: Section): Layer {
    l.(contextual := l.contextual + [s], counts := l.counts[s.contextType := CountOf(l.counts, s.contextType) + 1])
  }

  lemma LoadingKeepsCounts(l: Layer, s: Section)
    requires Counted(l)
    ensures Counted(WithSection(l, s))
  {
    forall t ensures CountOf(WithSection(l, s).counts, t) == CountSections(WithSection(l, s).contextual, t) {
      CountConcat(l.contextual, [s], t);
      assert [s][1..] == [];
    }
  }

  // ---------- the bindings for a context ----------

  predicate Applies(s: Section, t: ContextType, matches: Matcher, value: string) {
    s.contextType == t && matches(s.regex, value)
  }

  /** Fold the sections that apply over `base`, each on top of the ones before. */
  function Folded(base: Layer, secs: seq<Section>, t: ContextType, matches: Matcher, value: string): Layer {
    if secs == [] then base
    else
      var c := Folded(base, secs[..|secs| - 1], t, matches, value);
      var s := secs[|secs| - 1];
      if Applies(s, t, matches, value) then Merged([s.binds, c]) else c
  }

  function Fresh(base: Layer, t: ContextType, matches: Matcher, value: string): Layer {
    Folded(base, base.contextual, t, matches, value)
  }

  lemma {:induction false} NoSectionsNoFold(base: Layer, secs: seq<Section>, t: ContextType, matches: Matcher,
      value: string)
    requires CountSections(secs, t) == 0
    ensures Folded(base, secs, t, matches, value) == base
  {
    if secs != [] {
      var front, last := secs[..|secs| - 1], [secs[|secs| - 1]];
      assert secs == front + last;
      CountConcat(front, last, t);
      assert last[1..] == [];
      NoSectionsNoFold(base, front, t, matches, value);
    }
  }

  /** Sections have no contextual sections of their own: section names do not nest. */
  predicate Flat(secs: seq<Section>) {
    forall i :: 0 <= i < |secs| ==> secs[i].binds.contextual == [] && secs[i].binds.counts == map[]
  }

  lemma {:induction false} FoldedKeepsSections(base: Layer, secs: seq<Section>, t: ContextType, matches: Matcher,
      value: string)
    requires Flat(secs)
    ensures Folded(base, secs, t, matches, value).contextual == base.contextual
  {
    if secs != [] {
      var front, s := secs[..|secs| - 1], secs[|secs| - 1];
      FoldedKeepsSections(base, front, t, matches, value);
      var c := Folded(base, front, t, matches, value);
      assert [s.binds, c][1..] == [c] && [c][1..] == [];
      assert AllContextual([c]) == c.contextual + AllContextual([]) == c.contextual;
      assert AllContextual([s.binds, c]) == s.binds.contextual + AllContextual([c]) == c.contextual;
    }
  }

  lemma {:induction false} FoldedIsCounted(base: Layer, secs: seq<Section>, t: ContextType, matches: Matcher,
      value: string)
    requires Counted(base) && Flat(secs)
    ensures Counted(Folded(base, secs, t, matches, value))
  {
    if secs != [] {
      var front, s := secs[..|secs| - 1], secs[|secs| - 1];
      FoldedIsCounted(base, front, t, matches, value);
      assert Counted(s.binds);
      MergeKeepsCounts([s.binds, Folded(base, front, t, matches, value)]);
    }
  }

  // ---------- what they mean ----------

  /** The layers of the sections that apply, the last one on top, over `base`. */
  function ContextLayers(base: seq<Layer>, secs: seq<Section>, t: ContextType, matches: Matcher,
      value: string): (ls: seq<Layer>)
    ensures base != [] ==> ls != []
  {
    if secs == [] then base
    else
      var below := ContextLayers(base, secs[..|secs| - 1], t, matches, value);
      var s := secs[|secs| - 1];
      if Applies(s, t, matches, value) then [s.binds] + below else below
  }

  /** A section applies by its type and its expression; it then comes on top of all before it. */
  lemma ContextLayersOfOne(base: seq<Layer>, s: Section, t: ContextType, matches: Matcher, value: string)
    ensures ContextLayers(base, [s], t, matches, value)
      == if s.contextType == t && matches(s.regex, value) then [s.binds] + base else base
  {
    assert [s][..0] == [];
  }

  lemma {:induction false} ContextLayersConcat(base: seq<Layer>, a: seq<Section>, b: seq<Section>, t: ContextType,
      matches: Matcher, value: string)
    ensures ContextLayers(base, a + b, t, matches, value)
      == ContextLayers(ContextLayers(base, a, t, matches, value), b, t, matches, value)
  {
    if b == [] {
      assert a + b == a;
    } else {
      assert (a + b)[..|a + b| - 1] == a + b[..|b| - 1];
      ContextLayersConcat(base, a, b[..|b| - 1], t, matches, value);
    }
  }

  lemma {:induction false} FoldedDecides(
    base: Layer, under: seq<Layer>, secs: seq<Section>, t: ContextType, matches: Matcher, value: string, input: Keys)
    requires under != [] && Decide([base], input) == Decide(under, input)
    ensures Decide([Folded(base, secs, t, matches, value)], input)
         == Decide(ContextLayers(under, secs, t, matches, value), input)
  {
    if secs != [] {
      var front, s := secs[..|secs| - 1], secs[|secs| - 1];
      FoldedDecides(base, under, front, t, matches, value, input);
      if Applies(s, t, matches, value) {
        var c := Folded(base, front, t, matches, value);
        var below := ContextLayers(under, front, t, matches, value);
        DecideMerged([s.binds, c], input);
        assert [s.binds, c][1..] == [c];
        assert ([s.binds] + below)[1..] == below;
      }
    }
  }

  predicate NoErasures(l: Layer) {
    forall i :: 0 <= i < |l.bindings| ==> l.bindings[i].output != []
  }

  lemma {:induction false} FoldedNoErasures(base: Layer, secs: seq<Section>, t: ContextType, matches: Matcher,
      value: string)
    requires NoErasures(base)
    ensures NoErasures(Folded(base, secs, t, matches, value))
  {
    if secs != [] {
      var front, s := secs[..|secs| - 1], secs[|secs| - 1];
      FoldedNoErasures(base, front, t, matches, value);
      if Applies(s, t, matches, value) {
        var bs := Folded(base, secs, t, matches, value).bindings;
        CleanedIs(Stacked([s.binds, Folded(base, front, t, matches, value)]), []);
        assert forall i :: 0 <= i < |bs| ==> bs[i] in bs;
      }
    }
  }

  /** The bindings in force in a folder of an account: the sections for the folder over those
      for the account over the base. */
  function InForce(base: Layer, matches: Matcher, account: string, folder: string): Layer {
    Fresh(Fresh(base, ContextAccount, matches, account), ContextFolder, matches, folder)
  }

  lemma ContextMeaning(base: Layer, matches: Matcher, account: string, folder: string, input: Keys)
    requires Flat(base.contextual) && NoErasures(base)
    ensures Lookup(InForce(base, matches, account, folder).bindings, input)
      == Prescribed(
           ContextLayers(
             ContextLayers([base], base.contextual, ContextAccount, matches, account),
             base.contextual, ContextFolder, matches, folder),
           input)
  {
    var secs := base.contextual;
    var a := Fresh(base, ContextAccount, matches, account);
    var f := InForce(base, matches, account, folder);
    var under := ContextLayers([base], secs, ContextAccount, matches, account);
    var all := ContextLayers(under, secs, ContextFolder, matches, folder);
    FoldedKeepsSections(base, secs, ContextAccount, matches, account);
    FoldedNoErasures(base, secs, ContextAccount, matches, account);
    FoldedNoErasures(a, secs, ContextFolder, matches, folder);
    assert forall b :: b in f.bindings ==> b.output != [];
    LookupIsEffective(f.bindings, input);
    forall k ensures Effective(f.bindings, k) == Decide(all, k) {
      FoldedDecides(base, [base], secs, ContextAccount, matches, account, k);
      FoldedDecides(a, under, secs, ContextFolder, matches, folder, k);
      assert Decide([f][1..], k) == None;
    }
  }

  // ---------- the cache ----------

  /** KeyBindings: its contents, and the contextual bindings worked out so far. */
  class KeyBindings {
    const layer: Layer
    var cache: map<(ContextType, string), KeyBindings>

    constructor (layer: Layer)
      ensures this.layer == layer && cache == map[]
    {
      this.layer := layer;
      cache := map[];
    }

    /** contextual: with the shortcut, from the cache, or worked out and cached. */
    method Contextual(t: ContextType, matches: Matcher, value: string, ghost pool: set<KeyBindings>)
      returns (c: KeyBindings, ghost pool': set<KeyBindings>)
      requires this in pool && PoolValid(pool, matches)
      modifies this
      ensures PoolValid(pool', matches) && c in pool' && pool <= pool' && fresh(pool' - pool)
      ensures c.layer == Fresh(layer, t, matches, value)
    {
      pool' := pool;
      if CountOf(layer.counts, t) == 0 {
        NoSectionsNoFold(layer, layer.contextual, t, matches, value);
        return this, pool;
      }
      var key := (t, value);
      if key in cache {
        return cache[key], pool;
      }
      c := this;
      var i := 0;
      while i < |layer.contextual|
        invariant i <= |layer.contextual|
        invariant c.layer == Folded(layer, layer.contextual[..i], t, matches, value)
        invariant c == this || (fresh(c) && c.cache == map[])
        invariant unchanged(this)
      {
        var s := layer.contextual[i];
        assert layer.contextual[..i + 1][..i] == layer.contextual[..i];
        if s.contextType == t && matches(s.regex, value) {
          var merged := MergeBindings([s.binds, c.layer]);
          c := new KeyBindings(merged);
        }
        i := i + 1;
      }
      assert layer.contextual[..i] == layer.contextual;
      FoldedIsCounted(layer, layer.contextual, t, matches, value);
      FoldedKeepsSections(layer, layer.contextual, t, matches, value);
      pool' := pool + {c};
      cache := cache[key := c];
    }

    method ForAccount(matches: Matcher, account: string, ghost pool: set<KeyBindings>)
      returns (c: KeyBindings, ghost pool': set<KeyBindings>)
      requires this in pool && PoolValid(pool, matches)
      modifies this
      ensures PoolValid(pool', matches) && c in pool' && pool <= pool' && fresh(pool' - pool)
      ensures c.layer == Fresh(layer, ContextAccount, matches, account)
    {
      c, pool' := Contextual(ContextAccount, matches, account, pool);
    }

    method ForFolder(matches: Matcher, folder: string, ghost pool: set<KeyBindings>)
      returns (c: KeyBindings, ghost pool': set<KeyBindings>)
      requires this in pool && PoolValid(pool, matches)
      modifies this
      ensures PoolValid(pool', matches) && c in pool' && pool <= pool' && fresh(pool' - pool)
      ensures c.layer == Fresh(layer, ContextFolder, matches, folder)
    {
      c, pool' := Contextual(ContextFolder, matches, folder, pool);
    }

    /** ForAccount(account).ForFolder(folder), whatever has been asked before. */
    method For(matches: Matcher, account: string, folder: string, ghost pool: set<KeyBindings>)
      returns (c: KeyBindings, ghost pool': set<KeyBindings>)
      requires this in pool && PoolValid(pool, matches)
      modifies pool
      ensures PoolValid(pool', matches) && c in pool' && pool <= pool' && fresh(pool' - pool)
      ensures c.layer == InForce(layer, matches, account, folder)
    {
      var a;
      a, pool' := ForAccount(matches, account, pool);
      c, pool' := a.ForFolder(matches, folder, pool');
    }
  }

  /** Every cached value is what working it out afresh would give, in all bindings made so far. */
  ghost predicate PoolValid(pool: set<KeyBindings>, matches: Matcher)
    reads pool
  {
    forall o :: o in pool ==>
      && Counted(o.layer) && Flat(o.layer.contextual)
      && forall k :: k in o.cache ==>
           o.cache[k] in pool && o.cache[k].layer == Fresh(o.layer, k.0, matches, k.1)
  }
}
