/** Compiling a whole grammar: the compiled matcher has exactly the parse trees of the grammar. */
module PegGrammarCompiler {
  import opened Common
  import opened PegMatcher
  import opened PegSoundness
  import opened PegCompleteness
  import opened PegPattern
  import opened PegExpansion
  import opened PegCompiler
  import opened PegFactory

  /** A finished matcher has the parse trees of the pattern it represents, through all cycles. */
  lemma {:induction false} SameTrees(G: Grammar, g: Graph, cache: map<string, nat>, id: nat, p: Pattern, t: Tree)
    requires Closed(g) && CacheValid(G, g, cache, {}) && Represents(g, cache, {}, id, p)
    ensures Fits(g, id, t) <==> PatternFits(G, p, t)
    decreases t, if p.PReference? then 1 else 0
  {
    assert RefersInto(g[id], |g|);
    match p
    case PKeyword(_) =>
    case PReference(name) =>
      assert CacheEntry(G, g, cache, {}, name);
      if name !in G.terminals {
        SameTrees(G, g, cache, id, PGroup(RuleItems(G, name)), t);
      }
    case PGroup(items) =>
      if t.Node? && |t.children| == |items| {
        forall i | 0 <= i < |items|
          ensures Fits(g, g[id].children[i], t.children[i]) <==> PatternFits(G, items[i], t.children[i])
        {
          SameTrees(G, g, cache, g[id].children[i], items[i], t.children[i]);
        }
      }
    case POptional(q) => SameTreesEach(G, g, cache, g[id].child, q, t);
    case PRepeat(q) => SameTreesEach(G, g, cache, g[id].child, q, t);
    case PChoice(ps) =>
      if t.Node? && |t.children| == 1 {
        forall i | 0 <= i < |ps|
          ensures Fits(g, g[id].children[i], t.children[0]) <==> PatternFits(G, ps[i], t.children[0])
        {
          SameTrees(G, g, cache, g[id].children[i], ps[i], t.children[0]);
        }
      }
  }

  lemma {:induction false} SameTreesEach(G: Grammar, g: Graph, cache: map<string, nat>, id: nat, q: Pattern, t: Tree)
    requires Closed(g) && CacheValid(G, g, cache, {}) && Represents(g, cache, {}, id, q)
    ensures t.Node? ==> forall i :: 0 <= i < |t.children| ==>
              (Fits(g, id, t.children[i]) <==> PatternFits(G, q, t.children[i]))
    decreases t, 0, 0
  {
    if t.Node? {
      forall i | 0 <= i < |t.children|
        ensures Fits(g, id, t.children[i]) <==> PatternFits(G, q, t.children[i])
      {
        SameTrees(G, g, cache, id, q, t.children[i]);
      }
    }
  }

  // ----- overrides ------------------------------------------------------------------------------------

  datatype Override = Override(name: string, terminal: Terminal)

  /** The built-in rules; the first override of a name counts. */
  function TerminalsOf(overrides: seq<Override>): map<string, Terminal> {
    if overrides == [] then map[]
    else
      var earlier := TerminalsOf(Front(overrides));
      var o := Last(overrides);
      if o.name in earlier then earlier else earlier[o.name := o.terminal]
  }

  ghost predicate OnlyLeaves(g: Graph) {
    forall i :: 0 <= i < |g| ==> g[i].Leaf?
  }

  ghost predicate OverridesCached(g: Graph, cache: map<string, nat>, terminals: map<string, Terminal>) {
    cache.Keys == terminals.Keys && forall name :: name in cache ==> cache[name] < |g| && g[cache[name]] == Leaf(terminals[name])
  }

  function KeywordLeaves(keywords: seq<string>): Graph {
    seq(|keywords|, i requires 0 <= i < |keywords| => Leaf(PegMatcher.Keyword(keywords[i])))
  }

  /** No earlier keyword has the same letters. */
  predicate IsFirst(keywords: seq<string>, i: nat)
    requires i < |keywords|
  {
    forall j :: 0 <= j < i ==> LowerAll(keywords[j]) != LowerAll(keywords[i])
  }

  function Keys(keywords: seq<string>): seq<string> {
    seq(|keywords|, i requires 0 <= i < |keywords| => LowerAll(keywords[i]))
  }

  /** The matchers allocated from `base` on, by the keys of the keywords. */
  function KeyMap(keys: seq<string>, base: nat): map<string, nat> {
    if keys == [] then map[]
    else
      var earlier := KeyMap(Front(keys), base);
      if Last(keys) in earlier then earlier else earlier[Last(keys) := base + |keys| - 1]
  }

  /** The map has the first of equal keys. */
  lemma {:induction false} FirstKeyCounts(keys: seq<string>, base: nat, i: nat)
    requires i < |keys|
    ensures keys[i] in KeyMap(keys, base)
    ensures (forall j :: 0 <= j < i ==> keys[j] != keys[i]) ==> KeyMap(keys, base)[keys[i]] == base + i
    decreases |keys|
  {
    if i < |keys| - 1 {
      FirstKeyCounts(Front(keys), base, i);
    } else if keys[i] in KeyMap(Front(keys), base) {
      KeyAt(Front(keys), base, keys[i]);
    }
  }

  lemma {:induction false} KeyAt(keys: seq<string>, base: nat, k: string)
    requires k in KeyMap(keys, base)
    ensures base <= KeyMap(keys, base)[k] < base + |keys| && keys[KeyMap(keys, base)[k] - base] == k
    decreases |keys|
  {
    if k in KeyMap(Front(keys), base) {
      KeyAt(Front(keys), base, k);
    }
  }

  lemma KeyMapIsValid(g: Graph, keywords: seq<string>)
    ensures KeywordsValid(g + KeywordLeaves(keywords), KeyMap(Keys(keywords), |g|), |g| + |keywords|, {})
  {
    var nodes, overrides := g + KeywordLeaves(keywords), KeyMap(Keys(keywords), |g|);
    forall k | k in overrides
      ensures |g| <= overrides[k] < |nodes| && nodes[overrides[k]] == Leaf(PegMatcher.Keyword(keywords[overrides[k] - |g|]))
      ensures LowerAll(keywords[overrides[k] - |g|]) == k
    {
      KeyAt(Keys(keywords), |g|, k);
      assert Keys(keywords)[overrides[k] - |g|] == k;
    }
  }

  lemma FirstKeywordCounts(keywords: seq<string>, base: nat, i: nat)
    requires i < |keywords|
    ensures LowerAll(keywords[i]) in KeyMap(Keys(keywords), base)
    ensures IsFirst(keywords, i) ==> KeyMap(Keys(keywords), base)[LowerAll(keywords[i])] == base + i
  {
    assert forall j :: 0 <= j <= i ==> Keys(keywords)[j] == LowerAll(keywords[j]);
    FirstKeyCounts(Keys(keywords), base, i);
  }

  lemma KeyMapStep(keywords: seq<string>, base: nat, i: nat)
    requires i < |keywords|
    ensures var key, earlier := LowerAll(keywords[i]), KeyMap(Keys(keywords[..i]), base);
            KeyMap(Keys(keywords[..i + 1]), base) == if key in earlier then earlier else earlier[key := base + i]
    ensures KeywordLeaves(keywords[..i + 1]) == KeywordLeaves(keywords[..i]) + [Leaf(PegMatcher.Keyword(keywords[i]))]
  {
    assert Keys(keywords[..i + 1]) == Keys(keywords[..i]) + [LowerAll(keywords[i])];
    assert Front(Keys(keywords[..i + 1])) == Keys(keywords[..i]);
  }

  /** Every keyword gets a matcher; the first of those that differ only in case is used for all. */
  method AddKeywordOverrides(factory: MatcherFactory, keywords: seq<string>)
    requires OnlyLeaves(factory.nodes) && factory.keywordOverrides == map[]
    modifies factory`nodes, factory`keywordOverrides
    ensures OnlyLeaves(factory.nodes) && factory.nodes == old(factory.nodes) + KeywordLeaves(keywords)
    ensures KeywordsValid(factory.nodes, factory.keywordOverrides, |factory.nodes|, {})
    ensures forall i :: 0 <= i < |keywords| ==> LowerAll(keywords[i]) in factory.keywordOverrides
    ensures forall i :: 0 <= i < |keywords| && IsFirst(keywords, i) ==>
              factory.keywordOverrides[LowerAll(keywords[i])] == |old(factory.nodes)| + i
  {
    ghost var base := |factory.nodes|;
    for i := 0 to |keywords|
      invariant factory.nodes == old(factory.nodes) + KeywordLeaves(keywords[..i])
      invariant factory.keywordOverrides == KeyMap(Keys(keywords[..i]), base)
    {
      KeyMapStep(keywords, base, i);
      var id := factory.Allocate(Leaf(PegMatcher.Keyword(keywords[i])));
      if LowerAll(keywords[i]) !in factory.keywordOverrides {
        factory.keywordOverrides := factory.keywordOverrides[LowerAll(keywords[i]) := id];
      }
    }
    assert keywords[..|keywords|] == keywords;
    KeyMapIsValid(old(factory.nodes), keywords);
    forall i | 0 <= i < |keywords|
      ensures LowerAll(keywords[i]) in factory.keywordOverrides
      ensures IsFirst(keywords, i) ==> factory.keywordOverrides[LowerAll(keywords[i])] == base + i
    {
      FirstKeywordCounts(keywords, base, i);
    }
  }

  method AddRuleOverrides(factory: MatcherFactory, overrides: seq<Override>)
    requires OnlyLeaves(factory.nodes) && factory.matchers == map[]
    modifies factory`nodes, factory`matchers
    ensures OnlyLeaves(factory.nodes) && old(factory.nodes) <= factory.nodes
    ensures OverridesCached(factory.nodes, factory.matchers, TerminalsOf(overrides))
  {
    for i := 0 to |overrides|
      invariant OnlyLeaves(factory.nodes) && old(factory.nodes) <= factory.nodes
      invariant OverridesCached(factory.nodes, factory.matchers, TerminalsOf(overrides[..i]))
    {
      assert overrides[..i + 1] == overrides[..i] + [overrides[i]] && Front(overrides[..i + 1]) == overrides[..i];
      var id := factory.Allocate(Leaf(overrides[i].terminal));
      if overrides[i].name !in factory.matchers {
        factory.matchers := factory.matchers[overrides[i].name := id];
      }
    }
    assert overrides[..|overrides|] == overrides;
  }

  /** Compiles the rules reachable from `root`. Success means that the result is the grammar; it
      fails only for a grammar that is not well-formed. */
  method CreateRootMatcher(rules: map<string, Rule>, keywords: seq<string>, overrides: seq<Override>, root: string,
                           ghost rank: map<string, nat>) returns (graph: Graph, r: Result<nat>)
    requires CallsDescend(Grammar(rules, TerminalsOf(overrides), rank)) && RuleRanked(Grammar(rules, TerminalsOf(overrides), rank), root)
    ensures var G := Grammar(rules, TerminalsOf(overrides), rank);
            (r.Ok? ==>
               Closed(graph) && r.value < |graph| &&
               forall t :: Fits(graph, r.value, t) <==> PatternFits(G, PReference(root), t)) &&
            (r.Ok? && root !in G.terminals ==> graph[r.value].List?) &&
            (r.Err? ==> !GrammarOk(G) || !Defined(G, root, 0))
  {
    ghost var G := Grammar(rules, TerminalsOf(overrides), rank);
    var factory := new MatcherFactory();
    AddKeywordOverrides(factory, keywords);
    AddRuleOverrides(factory, overrides);
    OverridesValid(G, factory.nodes, factory.matchers);
    r := factory.CreateMatcher(rules, root, [], G, PGroup([]), {});
    graph := factory.nodes;
    if r.Ok? {
      assert CacheEntry(G, graph, factory.matchers, {}, root);
      forall t: Tree
        ensures Fits(graph, r.value, t) <==> PatternFits(G, PReference(root), t)
      {
        SameTrees(G, graph, factory.matchers, r.value, PReference(root), t);
      }
    }
  }

  lemma OverridesValid(G: Grammar, g: Graph, cache: map<string, nat>)
    requires OnlyLeaves(g) && OverridesCached(g, cache, G.terminals)
    ensures Closed(g) && CacheValid(G, g, cache, {})
  {
    forall m | 0 <= m < |g|
      ensures RefersInto(g[m], |g|)
    {
      assert g[m].Leaf?;
    }
  }

  /** A statement accepted by the compiled grammar is a sentence of the grammar. */
  lemma AcceptedIsGenerated(G: Grammar, g: Graph, id: nat, root: string, statement: seq<string>, fuel: nat)
    requires Closed(g) && Ready(g, statement, id, 0) && ParsesFully(g, id, statement, fuel)
    requires forall t :: Fits(g, id, t) <==> PatternFits(G, PReference(root), t)
    ensures Generates(G, PReference(root), statement)
  {
    AcceptedIsDerived(g, id, statement, fuel);
  }

  /** And where the next token decides, every sentence is accepted. */
  lemma AcceptedIffGenerated(G: Grammar, g: Graph, table: Table, id: nat, root: string, statement: seq<string>, fuel: nat)
    requires Closed(g) && Predictive(g, table) && Ready(g, statement, id, 0) && Run(g, statement, id, START, fuel) != Stuck
    requires forall t :: Fits(g, id, t) <==> PatternFits(G, PReference(root), t)
    ensures ParsesFully(g, id, statement, fuel) <==> Generates(G, PReference(root), statement)
  {
    AcceptedIffDerived(g, table, id, statement, fuel);
  }
}
