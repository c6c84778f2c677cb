/** The matcher factory and its list of matchers under construction, which edit the graph in
    place. The contracts say which machine step each method performs and, for a whole rule, that
    the new matchers represent the expanded body of the rule. */
module PegFactory {
  import opened Common
  import opened PegMatcher
  import opened PegSoundness
  import opened PegPattern
  import opened PegExpansion
  import opened PegCompiler

  function LowerAll(s: string): string {
    seq(|s|, i requires 0 <= i < |s| => ToLower(s[i]))
  }

  lemma SameLower(a: string, b: string)
    requires LowerAll(a) == LowerAll(b)
    ensures CIEquals(a, b)
  {
    assert |LowerAll(a)| == |a| && |LowerAll(b)| == |b|;
    forall i | 0 <= i < |a|
      ensures ToLower(a[i]) == ToLower(b[i])
    {
      assert LowerAll(a)[i] == ToLower(a[i]) && LowerAll(b)[i] == ToLower(b[i]);
    }
  }

  /** The special keywords, by their lower-case text. */
  ghost predicate KeywordsValid(g: Graph, overrides: map<string, nat>, base: nat, open: set<nat>) {
    forall k :: k in overrides ==>
      overrides[k] < base <= |g| && overrides[k] !in open &&
      g[overrides[k]].Leaf? && g[overrides[k]].terminal.Keyword? && LowerAll(g[overrides[k]].terminal.text) == k
  }

  /** A rule that can be called. */
  predicate IsMacro(rules: map<string, Rule>, name: string) {
    name != "" && name in rules && |rules[name].parameters| == 1
  }

  /** A rule that is compiled when it is referred to. */
  predicate IsPlain(rules: map<string, Rule>, terminals: map<string, Terminal>, name: string) {
    name in rules && name !in terminals && rules[name].parameters == []
  }

  /** Measure of the compilation of a call. */
  function CallMeasure(G: Grammar, name: string): nat {
    if IsMacro(G.rules, name) && name in G.rank then 3 * G.rank[name] + 3 else 1
  }

  /** A called macro is ranked below `level`. */
  predicate CallBelow(G: Grammar, name: string, level: nat) {
    IsMacro(G.rules, name) ==> name in G.rank && G.rank[name] < level
  }

  /** A rule that is referred to has a rank. */
  predicate RuleRanked(G: Grammar, name: string) {
    IsPlain(G.rules, G.terminals, name) ==> name in G.rank
  }

  predicate TokenBelow(G: Grammar, rule: Rule, token: PegToken, level: nat) {
    match token
    case FunctionCall(name) => CallBelow(G, name, level)
    case Reference(name) => name in rule.parameters || RuleRanked(G, name)
    case _ => true
  }

  /** Ranked rules refer only to ranked rules and call only macros of lower rank. */
  predicate CallsDescend(G: Grammar) {
    forall name :: name in G.rules && name in G.rank ==>
      forall i :: 0 <= i < |G.rules[name].tokens| ==> TokenBelow(G, G.rules[name], G.rules[name].tokens[i], G.rank[name])
  }

  /** `name` can be used with that many arguments. */
  predicate Defined(G: Grammar, name: string, arguments: nat) {
    (arguments == 0 && name in G.terminals) ||
    (arguments <= 1 && name in G.rules && |G.rules[name].parameters| == arguments)
  }

  predicate TokenOk(G: Grammar, rule: Rule, token: PegToken) {
    match token
    case Reference(name) => name in rule.parameters || Defined(G, name, 0)
    case FunctionCall(name) => name == "" || Defined(G, name, 1)
    case _ => true
  }

  /** The calls under construction are calls of rules with one parameter. */
  predicate FramesDefined(G: Grammar, frames: seq<Frame>) {
    forall i :: 0 <= i < |frames| ==> frames[i].call == "" || Defined(G, frames[i].call, 1)
  }

  lemma StepDefined(G: Grammar, rule: Rule, token: PegToken, frames: seq<Frame>)
    requires frames != [] && Step(token, frames).Ok? && TokenOk(G, rule, token) && FramesDefined(G, frames)
    ensures FramesDefined(G, Step(token, frames).value)
  {
    assert frames[|frames| - 1] == Last(frames);
  }

  predicate RuleOk(G: Grammar, rule: Rule) {
    |rule.parameters| <= 1 && Body(rule).Ok? &&
    forall i :: 0 <= i < |rule.tokens| ==> TokenOk(G, rule, rule.tokens[i])
  }

  /** The ranked rules can be compiled. */
  predicate GrammarOk(G: Grammar) {
    forall name :: name in G.rules && name in G.rank ==> RuleOk(G, G.rules[name])
  }

  ghost predicate FrameCallsBelow(G: Grammar, level: nat, frames: seq<Frame>) {
    forall i :: 0 <= i < |frames| ==> frames[i].call == "" || CallBelow(G, frames[i].call, level)
  }

  /** Everything that holds between two tokens of a rule; `parameters` is the compiled argument. */
  ghost predicate Invariant(G: Grammar, sc: Scope, m: Machine, cache: map<string, nat>, overrides: map<string, nat>,
                            base: nat, outer: set<nat>, frames: seq<Frame>, parameters: seq<nat>)
  {
    base <= |m.nodes| && Holds(G, sc, m, cache, base, outer, frames) &&
    KeywordsValid(m.nodes, overrides, base, outer) && FrameCallsBelow(G, sc.level, frames) &&
    |parameters| == (if sc.env.Some? then 1 else 0) &&
    (sc.env.Some? ==> Represents(m.nodes, cache, outer + Ids(m.stack), parameters[0], sc.env.value.argument))
  }

  datatype Condition = Sound | Unsound

  /** The invariant as a value, so that the methods below pass it around as a single fact. */
  ghost function Compiling(G: Grammar, sc: Scope, m: Machine, cache: map<string, nat>, overrides: map<string, nat>,
                           base: nat, outer: set<nat>, frames: seq<Frame>, parameters: seq<nat>): Condition
  {
    if Invariant(G, sc, m, cache, overrides, base, outer, frames, parameters) then Sound else Unsound
  }

  /** `Holds` is re-established by the step; the rest follows from `Advances`. */
  lemma StillCompiling(G: Grammar, sc: Scope, m: Machine, cache: map<string, nat>, overrides: map<string, nat>,
                       base: nat, outer: set<nat>, frames: seq<Frame>, parameters: seq<nat>,
                       n: Machine, cache': map<string, nat>, next: seq<Frame>)
    requires Compiling(G, sc, m, cache, overrides, base, outer, frames, parameters) == Sound
    requires Advances(base, outer, m, cache, n, cache') && Holds(G, sc, n, cache', base, outer, next)
    requires FrameCallsBelow(G, sc.level, next)
    ensures Compiling(G, sc, n, cache', overrides, base, outer, next, parameters) == Sound
  {
    if sc.env.Some? {
      StillRepresents(m.nodes, cache, outer + Ids(m.stack), n.nodes, cache', outer + Ids(n.stack), parameters[0],
                      sc.env.value.argument);
    }
  }

  /** What a nested compilation may rely on: everything outside `open` is finished. */
  ghost predicate FactoryValid(G: Grammar, g: Graph, cache: map<string, nat>, overrides: map<string, nat>, open: set<nat>) {
    Closed(g) && (forall i :: i in open ==> i < |g|) &&
    CacheValid(G, g, cache, open) && KeywordsValid(g, overrides, |g|, open)
  }

  lemma ValidWhileCompiling(G: Grammar, sc: Scope, m: Machine, cache: map<string, nat>, overrides: map<string, nat>,
                            base: nat, outer: set<nat>, frames: seq<Frame>, parameters: seq<nat>)
    requires Compiling(G, sc, m, cache, overrides, base, outer, frames, parameters) == Sound
    ensures FactoryValid(G, m.nodes, cache, overrides, outer + Ids(m.stack))
  {
  }

  lemma MoreMatchers(base: nat, outer: set<nat>, m: Machine, cache: map<string, nat>, g: Graph, cache': map<string, nat>)
    requires m.stack != [] && m.nodes <= g && CacheGrows(cache, cache', |m.nodes|)
    ensures Advances(base, outer, m, cache, m.(nodes := g), cache')
  {
  }

  /** New finished matchers and rules do not disturb the compilation. */
  lemma CompilingExtends(G: Grammar, sc: Scope, m: Machine, cache: map<string, nat>, overrides: map<string, nat>,
                         base: nat, outer: set<nat>, frames: seq<Frame>, parameters: seq<nat>,
                         g: Graph, cache': map<string, nat>)
    requires Compiling(G, sc, m, cache, overrides, base, outer, frames, parameters) == Sound
    requires m.nodes <= g && Closed(g) && CacheGrows(cache, cache', |m.nodes|)
    requires CacheValid(G, g, cache', outer + Ids(m.stack))
    ensures Compiling(G, sc, m.(nodes := g), cache', overrides, base, outer, frames, parameters) == Sound
    ensures Advances(base, outer, m, cache, m.(nodes := g), cache')
  {
    Extend(G, sc, m.nodes, cache, base, outer, m.stack, frames, g, cache');
    TopMatcher(G, sc, m, cache, base, outer, frames);
    MoreMatchers(base, outer, m, cache, g, cache');
    StillCompiling(G, sc, m, cache, overrides, base, outer, frames, parameters, m.(nodes := g), cache', frames);
  }

  lemma CompilingAllocates(G: Grammar, sc: Scope, m: Machine, cache: map<string, nat>, overrides: map<string, nat>,
                           base: nat, outer: set<nat>, frames: seq<Frame>, parameters: seq<nat>, node: Matcher)
    requires Compiling(G, sc, m, cache, overrides, base, outer, frames, parameters) == Sound && RefersInto(node, |m.nodes|)
    ensures Compiling(G, sc, m.(nodes := m.nodes + [node]), cache, overrides, base, outer, frames, parameters) == Sound
    ensures Advances(base, outer, m, cache, m.(nodes := m.nodes + [node]), cache)
  {
    Allocated(G, sc, m.nodes, cache, base, outer, m.stack, frames, node);
    CompilingExtends(G, sc, m, cache, overrides, base, outer, frames, parameters, m.nodes + [node], cache);
  }

  /** A finished item goes where the next item belongs. */
  lemma ItemCompiles(G: Grammar, sc: Scope, m: Machine, cache: map<string, nat>, overrides: map<string, nat>,
                     base: nat, outer: set<nat>, frames: seq<Frame>, parameters: seq<nat>, id: nat, p: Pattern)
    requires Compiling(G, sc, m, cache, overrides, base, outer, frames, parameters) == Sound
    requires Represents(m.nodes, cache, outer + Ids(m.stack), id, Expand(G, p, sc.env, sc.level))
    ensures OnTop(m) && AddItem(m, id).Ok?
    ensures Compiling(G, sc, AddItem(m, id).value, cache, overrides, base, outer, PlaceTop(frames, p), parameters) == Sound
    ensures Advances(base, outer, m, cache, AddItem(m, id).value, cache)
  {
    AddItemHolds(G, sc, m, cache, base, outer, frames, id, p);
    assert FrameCallsBelow(G, sc.level, PlaceTop(frames, p));
    StillCompiling(G, sc, m, cache, overrides, base, outer, frames, parameters, AddItem(m, id).value, cache, PlaceTop(frames, p));
  }

  /** A finished bracket leaves the stack. */
  lemma BracketCompiles(G: Grammar, sc: Scope, m: Machine, cache: map<string, nat>, overrides: map<string, nat>,
                        base: nat, outer: set<nat>, frames: seq<Frame>, parameters: seq<nat>)
    requires Compiling(G, sc, m, cache, overrides, base, outer, frames, parameters) == Sound
    requires !Last(frames).awaiting && |frames| > 1
    ensures |m.stack| > 1
    ensures var n := m.(stack := Front(m.stack));
            Compiling(G, sc, n, cache, overrides, base, outer, Front(frames), parameters) == Sound &&
            Advances(base, outer, m, cache, n, cache) &&
            Represents(n.nodes, cache, outer + Ids(n.stack), Last(m.stack).matcher,
                       Expand(G, PGroup(Last(frames).items), sc.env, sc.level))
  {
    var n := m.(stack := Front(m.stack));
    CloseList(G, sc, m.nodes, cache, base, outer, m.stack, frames);
    IdsOfFront(m.stack);
    StillCompiling(G, sc, m, cache, overrides, base, outer, frames, parameters, n, cache, Front(frames));
  }

  /** A bracket that closes right after '/'. */
  lemma LoneChoiceCompiles(G: Grammar, sc: Scope, m: Machine, cache: map<string, nat>, overrides: map<string, nat>,
                           base: nat, outer: set<nat>, frames: seq<Frame>, parameters: seq<nat>) returns (n: Machine)
    requires Compiling(G, sc, m, cache, overrides, base, outer, frames, parameters) == Sound && Last(frames).awaiting
    ensures |m.stack| > 1 && OnTop(m.(stack := Front(m.stack)))
    ensures AddItem(m.(stack := Front(m.stack)), Last(m.stack).matcher) == Ok(n)
    ensures Step(Operator(')'), frames).Ok?
    ensures Compiling(G, sc, n, cache, overrides, base, outer, Step(Operator(')'), frames).value, parameters) == Sound
    ensures Advances(base, outer, m, cache, n, cache)
  {
    var next := Step(Operator(')'), frames).value;
    CloseLoneChoice(G, sc, m.nodes, cache, base, outer, m.stack, frames);
    n := AddItem(m.(stack := Front(m.stack)), Last(m.stack).matcher).value;
    IdsOfFront(m.stack);
    InIds(m.stack);
    assert Last(Front(m.stack)) == m.stack[|m.stack| - 2];
    assert FrameCallsBelow(G, sc.level, next);
    StillCompiling(G, sc, m, cache, overrides, base, outer, frames, parameters, n, cache, next);
  }

  /** The children of the parameter list represent the argument of the call. */
  lemma ArgumentItems(G: Grammar, sc: Scope, m: Machine, cache: map<string, nat>, overrides: map<string, nat>,
                      base: nat, outer: set<nat>, frames: seq<Frame>, parameters: seq<nat>)
    requires Compiling(G, sc, m, cache, overrides, base, outer, frames, parameters) == Sound && !Last(frames).awaiting
    ensures OnTop(m) && m.nodes[Last(m.stack).matcher].List? && Last(m.stack).functionName == Last(frames).call
    ensures RefersInto(m.nodes[Last(m.stack).matcher], |m.nodes|)
    ensures RepresentsAll(m.nodes, cache, outer + Ids(m.stack), m.nodes[Last(m.stack).matcher].children,
                          ExpandAll(G, Last(frames).items, sc.env, sc.level))
  {
  }

  lemma ListRepresents(g: Graph, cache: map<string, nat>, open: set<nat>, ids: seq<nat>, ps: seq<Pattern>)
    requires RepresentsAll(g, cache, open, ids, ps) && forall i :: i in open ==> i < |g|
    ensures Represents(g + [List(ids)], cache, open, |g|, PGroup(ps))
  {
    assert Grows(g, cache, open, g + [List(ids)], cache, open);
    StillRepresentsAll(g, cache, open, g + [List(ids)], cache, open, ids, ps);
  }

  lemma AdvancesTwice(base: nat, outer: set<nat>, m: Machine, c: map<string, nat>, n: Machine, c': map<string, nat>,
                      o: Machine, c'': map<string, nat>)
    requires Advances(base, outer, m, c, n, c') && Advances(base, outer, n, c', o, c'')
    ensures Advances(base, outer, m, c, o, c'')
  {
  }

  /** A rule that can be called. */
  predicate CallOk(G: Grammar, name: string) {
    name in G.rank && Callable(G, name, G.rank[name] + 1)
  }

  /** The body of a called rule for an expanded argument. */
  function CalledBody(G: Grammar, name: string, argument: Pattern): Pattern
    requires CallOk(G, name)
  {
    var rule := G.rules[name];
    PGroup(ExpandAll(G, Body(rule).value, Some(Binding(rule.parameters[0], argument)), G.rank[name]))
  }

  lemma BottomFrame(G: Grammar, sc: Scope, m: Machine, cache: map<string, nat>, base: nat, outer: set<nat>, frames: seq<Frame>)
    requires Holds(G, sc, m, cache, base, outer, frames) && |m.stack| <= 1
    ensures |frames| == 1 && !Last(frames).awaiting
  {
    assert StackHolds(G, sc, m.nodes, cache, outer + Ids(m.stack), Front(m.stack), Front(frames));
    assert Front(frames) == [];
  }

  lemma DeepStack(G: Grammar, sc: Scope, m: Machine, cache: map<string, nat>, base: nat, outer: set<nat>, frames: seq<Frame>)
    requires Holds(G, sc, m, cache, base, outer, frames) && |m.stack| > 1 && !Last(frames).awaiting
    ensures |frames| > 1
  {
    assert StackHolds(G, sc, m.nodes, cache, outer + Ids(m.stack), Front(m.stack), Front(frames));
  }

  lemma KeywordCompiles(G: Grammar, sc: Scope, m: Machine, cache: map<string, nat>, overrides: map<string, nat>,
                        base: nat, outer: set<nat>, frames: seq<Frame>, parameters: seq<nat>, text: string)
    requires Compiling(G, sc, m, cache, overrides, base, outer, frames, parameters) == Sound
    ensures KeywordsValid(m.nodes, overrides, |m.nodes|, {})
    ensures var known := LowerAll(text) in overrides;
            var n := if known then m else m.(nodes := m.nodes + [Leaf(PegMatcher.Keyword(text))]);
            var id := if known then overrides[LowerAll(text)] else |m.nodes|;
            Compiling(G, sc, n, cache, overrides, base, outer, frames, parameters) == Sound &&
            Advances(base, outer, m, cache, n, cache) &&
            Represents(n.nodes, cache, outer + Ids(n.stack), id, PKeyword(text))
  {
    TopMatcher(G, sc, m, cache, base, outer, frames);
    if LowerAll(text) in overrides {
      SameLower(m.nodes[overrides[LowerAll(text)]].terminal.text, text);
    } else {
      CompilingAllocates(G, sc, m, cache, overrides, base, outer, frames, parameters, Leaf(PegMatcher.Keyword(text)));
    }
  }

  /** The state before the first token of a rule. */
  lemma StartCompiles(G: Grammar, sc: Scope, g: Graph, cache: map<string, nat>, cache': map<string, nat>,
                      overrides: map<string, nat>, open: set<nat>, name: string, parameters: seq<nat>, g': Graph)
    requires FactoryValid(G, g, cache, overrides, open) && g' == g + [List([])]
    requires name in G.rules && |parameters| == |G.rules[name].parameters| == (if sc.env.Some? then 1 else 0)
    requires sc.env.Some? ==> Represents(g, cache, open, parameters[0], sc.env.value.argument) && cache' == cache
    requires sc.env.None? ==> name !in cache && cache' == cache[name := |g|]
    ensures Compiling(G, sc, Machine(g', [Entry(|g|, "")]), cache', overrides, |g|, open, ROOT, parameters) == Sound
    ensures CacheGrows(cache, cache', |g|)
  {
    var m := Machine(g', [Entry(|g|, "")]);
    ClosedGraphGrows(g, List([]));
    assert Ids(m.stack) == {|g|} by {
      IdsOfFront(m.stack);
      assert Front(m.stack) == [];
    }
    assert Grows(g, cache, open, g', cache', open + {|g|});
    forall n | n in cache'
      ensures CacheEntry(G, g', cache', open + {|g|}, n)
    {
      if n in cache {
        assert CacheEntry(G, g, cache, open, n);
        if n !in G.terminals && cache[n] !in open {
          StillRepresents(g, cache, open, g', cache', open + {|g|}, cache[n], PGroup(RuleItems(G, n)));
        }
      }
    }
    CachedBelow(G, g, cache, open);
    assert Front(ROOT) == [] && Front(m.stack) == [];
    assert ListHolds(G, sc, g', cache', open + {|g|}, |g|, []);
    if sc.env.Some? {
      StillRepresents(g, cache, open, g', cache', open + {|g|}, parameters[0], sc.env.value.argument);
    }
  }

  /** The state after the last token of a rule whose brackets are all closed. */
  lemma RuleCompiled(G: Grammar, sc: Scope, m: Machine, cache: map<string, nat>, overrides: map<string, nat>,
                     base: nat, open: set<nat>, frames: seq<Frame>, parameters: seq<nat>, name: string)
    requires Compiling(G, sc, m, cache, overrides, base, open, frames, parameters) == Sound && |m.stack| == 1
    requires name in G.rules && name in G.rank && sc.level == G.rank[name]
    requires |G.rules[name].parameters| == (if sc.env.Some? then 1 else 0)
    requires Elaborate(G.rules[name].tokens, ROOT) == Ok(frames)
    requires sc.env.Some? ==> sc.env.value.parameter == G.rules[name].parameters[0]
    requires sc.env.None? ==> name !in G.terminals && name in cache && cache[name] == m.stack[0].matcher
    requires forall n :: n in cache && cache[n] == m.stack[0].matcher ==> sc.env.None? && n == name
    ensures FactoryValid(G, m.nodes, cache, overrides, open)
    ensures sc.env.Some? ==>
              CallOk(G, name) &&
              Represents(m.nodes, cache, open, m.stack[0].matcher, CalledBody(G, name, sc.env.value.argument))
  {
    BottomFrame(G, sc, m, cache, base, open, frames);
    var id := m.stack[0].matcher;
    var open' := open + Ids(m.stack);
    IdsOfFront(m.stack);
    assert Front(m.stack) == [] && Ids(m.stack) == {id};
    assert Grows(m.nodes, cache, open', m.nodes, cache, open);
    var items := Last(frames).items;
    StillRepresentsAll(m.nodes, cache, open', m.nodes, cache, open, m.nodes[id].children,
                       ExpandAll(G, items, sc.env, sc.level));
    forall n | n in cache
      ensures CacheEntry(G, m.nodes, cache, open, n)
    {
      assert CacheEntry(G, m.nodes, cache, open', n);
      if cache[n] == id {
        assert RuleItems(G, name) == ExpandAll(G, items, sc.env, sc.level);
      } else if n !in G.terminals && cache[n] !in open {
        StillRepresents(m.nodes, cache, open', m.nodes, cache, open, cache[n], PGroup(RuleItems(G, n)));
      }
    }
  }

  lemma CacheGrowsTwice(a: map<string, nat>, b: map<string, nat>, c: map<string, nat>, from: nat)
    requires CacheGrows(a, b, from) && CacheGrows(b, c, from + 1)
    ensures CacheGrows(a, c, from)
  {
  }

  /** Only the rule itself is cached with the matcher that was allocated for it. */
  lemma OnlyThisRule(a: map<string, nat>, b: map<string, nat>, c: map<string, nat>, id: nat, ruleName: string)
    requires (forall n :: n in a ==> a[n] < id) && (b == a || b == a[ruleName := id]) && CacheGrows(b, c, id + 1)
    ensures forall n :: n in c && c[n] == id ==> b != a && n == ruleName
  {
  }

  lemma CompilingStays(G: Grammar, sc: Scope, m: Machine, cache: map<string, nat>, overrides: map<string, nat>,
                       base: nat, outer: set<nat>, frames: seq<Frame>, parameters: seq<nat>)
    requires Compiling(G, sc, m, cache, overrides, base, outer, frames, parameters) == Sound
    ensures Advances(base, outer, m, cache, m, cache)
  {
    TopMatcher(G, sc, m, cache, base, outer, frames);
  }

  lemma UnclosedBracket(G: Grammar, sc: Scope, m: Machine, cache: map<string, nat>, overrides: map<string, nat>,
                        base: nat, outer: set<nat>, frames: seq<Frame>, parameters: seq<nat>)
    requires Compiling(G, sc, m, cache, overrides, base, outer, frames, parameters) == Sound && |m.stack| != 1
    ensures |frames| != 1 || frames[0].awaiting
  {
    TopMatcher(G, sc, m, cache, base, outer, frames);
    if !Last(frames).awaiting {
      DeepStack(G, sc, m, cache, base, outer, frames);
    }
  }

  lemma NextToken(tokens: seq<PegToken>, i: nat, frames: seq<Frame>)
    requires i < |tokens| && frames != []
    ensures Elaborate(tokens[i..], frames) ==
            match Step(tokens[i], frames)
            case Ok(next) => Elaborate(tokens[i + 1..], next)
            case Err(message) => Err(message)
  {
    assert tokens[i..][0] == tokens[i] && tokens[i..][1..] == tokens[i + 1..];
  }

  // ----- one lemma for each kind of token -----------------------------------------------------------

  lemma LiteralCompiles(G: Grammar, sc: Scope, m: Machine, cache: map<string, nat>, overrides: map<string, nat>,
                        base: nat, outer: set<nat>, frames: seq<Frame>, parameters: seq<nat>, text: string)
    returns (n: Machine, id: nat, q: Machine)
    requires Compiling(G, sc, m, cache, overrides, base, outer, frames, parameters) == Sound
    ensures KeywordsValid(m.nodes, overrides, |m.nodes|, {})
    ensures var known := LowerAll(text) in overrides;
            n == (if known then m else m.(nodes := m.nodes + [Leaf(PegMatcher.Keyword(text))])) &&
            id == (if known then overrides[LowerAll(text)] else |m.nodes|)
    ensures OnTop(n) && AddItem(n, id) == Ok(q) && Advances(base, outer, m, cache, q, cache)
    ensures Compiling(G, sc, q, cache, overrides, base, outer, PlaceTop(frames, PKeyword(text)), parameters) == Sound
  {
    KeywordCompiles(G, sc, m, cache, overrides, base, outer, frames, parameters, text);
    n := if LowerAll(text) in overrides then m else m.(nodes := m.nodes + [Leaf(PegMatcher.Keyword(text))]);
    id := if LowerAll(text) in overrides then overrides[LowerAll(text)] else |m.nodes|;
    ItemCompiles(G, sc, n, cache, overrides, base, outer, frames, parameters, id, PKeyword(text));
    q := AddItem(n, id).value;
    AdvancesTwice(base, outer, m, cache, n, cache, q, cache);
  }

  /** A rule referenced by name has been compiled, which left `g` and `cache'`. */
  lemma ReferenceCompiles(G: Grammar, sc: Scope, m: Machine, cache: map<string, nat>, overrides: map<string, nat>,
                          base: nat, outer: set<nat>, frames: seq<Frame>, parameters: seq<nat>, name: string, id: nat,
                          g: Graph, cache': map<string, nat>) returns (q: Machine)
    requires Compiling(G, sc, m, cache, overrides, base, outer, frames, parameters) == Sound
    requires m.nodes <= g && CacheGrows(cache, cache', |m.nodes|)
    requires FactoryValid(G, g, cache', overrides, outer + Ids(m.stack))
    requires Represents(g, cache', outer + Ids(m.stack), id, PReference(name))
    requires sc.env.Some? ==> sc.env.value.parameter != name
    ensures var n := m.(nodes := g);
            OnTop(n) && AddItem(n, id) == Ok(q) && Advances(base, outer, m, cache, q, cache')
    ensures Compiling(G, sc, q, cache', overrides, base, outer, PlaceTop(frames, PReference(name)), parameters) == Sound
  {
    var n := m.(nodes := g);
    CompilingExtends(G, sc, m, cache, overrides, base, outer, frames, parameters, g, cache');
    ItemCompiles(G, sc, n, cache', overrides, base, outer, frames, parameters, id, PReference(name));
    q := AddItem(n, id).value;
    AdvancesTwice(base, outer, m, cache, n, cache', q, cache');
  }

  lemma BeginListCompiles(G: Grammar, sc: Scope, m: Machine, cache: map<string, nat>, overrides: map<string, nat>,
                          base: nat, outer: set<nat>, frames: seq<Frame>, parameters: seq<nat>, call: string)
    requires Compiling(G, sc, m, cache, overrides, base, outer, frames, parameters) == Sound
    requires call == "" || CallBelow(G, call, sc.level)
    ensures Advances(base, outer, m, cache, OpenList(m, call), cache)
    ensures Compiling(G, sc, OpenList(m, call), cache, overrides, base, outer, frames + [Frame(call, [], false)], parameters) == Sound
  {
    OpenListHolds(G, sc, m, cache, base, outer, frames, call);
    StillCompiling(G, sc, m, cache, overrides, base, outer, frames, parameters, OpenList(m, call), cache,
                   frames + [Frame(call, [], false)]);
  }

  lemma SameCallsBelow(G: Grammar, level: nat, frames: seq<Frame>, next: seq<Frame>)
    requires FrameCallsBelow(G, level, frames) && |next| == |frames|
    requires forall i :: 0 <= i < |frames| ==> next[i].call == frames[i].call
    ensures FrameCallsBelow(G, level, next)
  {
  }

  /** There is a last item that '?', '*' and '/' can change. */
  predicate HasItem(frames: seq<Frame>)
    requires frames != []
  {
    !Last(frames).awaiting && Last(frames).items != []
  }

  /** Without a last item there is an error. */
  lemma NoItem(G: Grammar, sc: Scope, m: Machine, cache: map<string, nat>, overrides: map<string, nat>,
               base: nat, outer: set<nat>, frames: seq<Frame>, parameters: seq<nat>, op: char)
    requires Compiling(G, sc, m, cache, overrides, base, outer, frames, parameters) == Sound && (op == '?' || op == '*' || op == '/')
    requires !HasItem(frames)
    ensures OnTop(m) && Step(Operator(op), frames).Err? && (if op == '/' then BeginChoice(m).Err? else MakeOptional(m, op).Err?)
  {
    TopMatcher(G, sc, m, cache, base, outer, frames);
  }

  lemma OptionalCompiles(G: Grammar, sc: Scope, m: Machine, cache: map<string, nat>, overrides: map<string, nat>,
                         base: nat, outer: set<nat>, frames: seq<Frame>, parameters: seq<nat>, op: char)
    requires Compiling(G, sc, m, cache, overrides, base, outer, frames, parameters) == Sound && (op == '?' || op == '*')
    ensures OnTop(m)
    ensures match Step(Operator(op), frames)
            case Err(_) => MakeOptional(m, op).Err?
            case Ok(next) =>
              MakeOptional(m, op).Ok? && Advances(base, outer, m, cache, MakeOptional(m, op).value, cache) &&
              Compiling(G, sc, MakeOptional(m, op).value, cache, overrides, base, outer, next, parameters) == Sound
  {
    if HasItem(frames) {
      var n := ItemIsOptional(G, sc, m, cache, overrides, base, outer, frames, parameters, op);
    } else {
      NoItem(G, sc, m, cache, overrides, base, outer, frames, parameters, op);
    }
  }

  lemma ItemIsOptional(G: Grammar, sc: Scope, m: Machine, cache: map<string, nat>, overrides: map<string, nat>,
                       base: nat, outer: set<nat>, frames: seq<Frame>, parameters: seq<nat>, op: char) returns (n: Machine)
    requires Compiling(G, sc, m, cache, overrides, base, outer, frames, parameters) == Sound && (op == '?' || op == '*')
    requires HasItem(frames)
    ensures OnTop(m) && MakeOptional(m, op) == Ok(n) && Advances(base, outer, m, cache, n, cache)
    ensures Step(Operator(op), frames).Ok?
    ensures Compiling(G, sc, n, cache, overrides, base, outer, Step(Operator(op), frames).value, parameters) == Sound
  {
    n := MakeOptionalHolds(G, sc, m, cache, base, outer, frames, op);
    var next := Step(Operator(op), frames).value;
    SameCallsBelow(G, sc.level, frames, next);
    StillCompiling(G, sc, m, cache, overrides, base, outer, frames, parameters, n, cache, next);
  }

  lemma ChoiceCompiles(G: Grammar, sc: Scope, m: Machine, cache: map<string, nat>, overrides: map<string, nat>,
                       base: nat, outer: set<nat>, frames: seq<Frame>, parameters: seq<nat>)
    requires Compiling(G, sc, m, cache, overrides, base, outer, frames, parameters) == Sound
    ensures OnTop(m)
    ensures match Step(Operator('/'), frames)
            case Err(_) => BeginChoice(m).Err?
            case Ok(next) =>
              BeginChoice(m).Ok? && Advances(base, outer, m, cache, BeginChoice(m).value, cache) &&
              Compiling(G, sc, BeginChoice(m).value, cache, overrides, base, outer, next, parameters) == Sound
  {
    if HasItem(frames) {
      var n := ChoiceBegins(G, sc, m, cache, overrides, base, outer, frames, parameters);
    } else {
      NoItem(G, sc, m, cache, overrides, base, outer, frames, parameters, '/');
    }
  }

  lemma ChoiceBegins(G: Grammar, sc: Scope, m: Machine, cache: map<string, nat>, overrides: map<string, nat>,
                     base: nat, outer: set<nat>, frames: seq<Frame>, parameters: seq<nat>) returns (n: Machine)
    requires Compiling(G, sc, m, cache, overrides, base, outer, frames, parameters) == Sound && HasItem(frames)
    ensures OnTop(m) && BeginChoice(m) == Ok(n) && Advances(base, outer, m, cache, n, cache)
    ensures Step(Operator('/'), frames).Ok?
    ensures Compiling(G, sc, n, cache, overrides, base, outer, Step(Operator('/'), frames).value, parameters) == Sound
  {
    n := BeginChoiceHolds(G, sc, m, cache, base, outer, frames);
    var next := Step(Operator('/'), frames).value;
    SameCallsBelow(G, sc.level, frames, next);
    StillCompiling(G, sc, m, cache, overrides, base, outer, frames, parameters, n, cache, next);
  }

  /** A bracket that is not a call closes. */
  lemma GroupCompiles(G: Grammar, sc: Scope, m: Machine, cache: map<string, nat>, overrides: map<string, nat>,
                      base: nat, outer: set<nat>, frames: seq<Frame>, parameters: seq<nat>) returns (q: Machine)
    requires Compiling(G, sc, m, cache, overrides, base, outer, frames, parameters) == Sound
    requires |m.stack| > 1 && Last(m.stack).functionName == ""
    ensures OnTop(m.(stack := Front(m.stack))) && Step(Operator(')'), frames).Ok?
    ensures AddItem(m.(stack := Front(m.stack)), Last(m.stack).matcher) == Ok(q)
    ensures Advances(base, outer, m, cache, q, cache)
    ensures Compiling(G, sc, q, cache, overrides, base, outer, Step(Operator(')'), frames).value, parameters) == Sound
  {
    TopMatcher(G, sc, m, cache, base, outer, frames);
    if Last(frames).awaiting {
      q := LoneChoiceCompiles(G, sc, m, cache, overrides, base, outer, frames, parameters);
    } else {
      q := PlainGroupCompiles(G, sc, m, cache, overrides, base, outer, frames, parameters);
    }
  }

  lemma PlainGroupCompiles(G: Grammar, sc: Scope, m: Machine, cache: map<string, nat>, overrides: map<string, nat>,
                           base: nat, outer: set<nat>, frames: seq<Frame>, parameters: seq<nat>) returns (q: Machine)
    requires Compiling(G, sc, m, cache, overrides, base, outer, frames, parameters) == Sound && !Last(frames).awaiting
    requires |m.stack| > 1 && Last(m.stack).functionName == "" && Last(frames).call == ""
    ensures OnTop(m.(stack := Front(m.stack))) && Step(Operator(')'), frames).Ok?
    ensures AddItem(m.(stack := Front(m.stack)), Last(m.stack).matcher) == Ok(q)
    ensures Advances(base, outer, m, cache, q, cache)
    ensures Compiling(G, sc, q, cache, overrides, base, outer, Step(Operator(')'), frames).value, parameters) == Sound
  {
    DeepStack(G, sc, m, cache, base, outer, frames);
    BracketCompiles(G, sc, m, cache, overrides, base, outer, frames, parameters);
    var n := m.(stack := Front(m.stack));
    ItemCompiles(G, sc, n, cache, overrides, base, outer, Front(frames), parameters, Last(m.stack).matcher,
                 PGroup(Last(frames).items));
    q := AddItem(n, Last(m.stack).matcher).value;
    AdvancesTwice(base, outer, m, cache, n, cache, q, cache);
  }

  /** The argument of a call is complete: one item, or a new list of the items. */
  lemma ArgumentCompiles(G: Grammar, sc: Scope, m: Machine, cache: map<string, nat>, overrides: map<string, nat>,
                         base: nat, outer: set<nat>, frames: seq<Frame>, parameters: seq<nat>)
    returns (n: Machine, parameter: nat)
    requires Compiling(G, sc, m, cache, overrides, base, outer, frames, parameters) == Sound
    requires |m.stack| > 1 && Last(m.stack).functionName != ""
    ensures !Last(frames).awaiting && |frames| > 1 && Last(m.stack).functionName == Last(frames).call
    ensures CallBelow(G, Last(frames).call, sc.level)
    ensures OnTop(m) && m.nodes[Last(m.stack).matcher].List?
    ensures var children := m.nodes[Last(m.stack).matcher].children;
            if |children| == 1 then n == m && parameter == children[0]
            else n == m.(nodes := m.nodes + [List(children)]) && parameter == |m.nodes|
    ensures Compiling(G, sc, n, cache, overrides, base, outer, frames, parameters) == Sound
    ensures Advances(base, outer, m, cache, n, cache) && FactoryValid(G, n.nodes, cache, overrides, outer + Ids(n.stack))
    ensures Represents(n.nodes, cache, outer + Ids(n.stack), parameter,
                       Wrap(ExpandAll(G, Last(frames).items, sc.env, sc.level)))
  {
    TopMatcher(G, sc, m, cache, base, outer, frames);
    DeepStack(G, sc, m, cache, base, outer, frames);
    ArgumentItems(G, sc, m, cache, overrides, base, outer, frames, parameters);
    assert FrameCallsBelow(G, sc.level, frames) && frames[|frames| - 1] == Last(frames);
    var children := m.nodes[Last(m.stack).matcher].children;
    if |children| == 1 {
      n, parameter := m, children[0];
    } else {
      CompilingAllocates(G, sc, m, cache, overrides, base, outer, frames, parameters, List(children));
      ListRepresents(m.nodes, cache, outer + Ids(m.stack), children, ExpandAll(G, Last(frames).items, sc.env, sc.level));
      n, parameter := m.(nodes := m.nodes + [List(children)]), |m.nodes|;
    }
    ValidWhileCompiling(G, sc, n, cache, overrides, base, outer, frames, parameters);
  }

  /** The called rule has been compiled after the argument `n`, which left `g` and `cache'`. */
  lemma CallCompiles(G: Grammar, sc: Scope, m: Machine, n: Machine, cache: map<string, nat>, overrides: map<string, nat>,
                     base: nat, outer: set<nat>, frames: seq<Frame>, parameters: seq<nat>, id: nat,
                     g: Graph, cache': map<string, nat>) returns (q: Machine)
    requires Compiling(G, sc, n, cache, overrides, base, outer, frames, parameters) == Sound
    requires Advances(base, outer, m, cache, n, cache)
    requires !Last(frames).awaiting && |frames| > 1 && Last(frames).call != ""
    requires n.nodes <= g && CacheGrows(cache, cache', |n.nodes|)
    requires FactoryValid(G, g, cache', overrides, outer + Ids(n.stack))
    requires CallOk(G, Last(frames).call) && CallBelow(G, Last(frames).call, sc.level)
    requires Represents(g, cache', outer + Ids(n.stack), id,
                        CalledBody(G, Last(frames).call, Wrap(ExpandAll(G, Last(frames).items, sc.env, sc.level))))
    ensures |n.stack| > 1 && OnTop(Machine(g, Front(n.stack)))
    ensures AddItem(Machine(g, Front(n.stack)), id) == Ok(q) && Advances(base, outer, m, cache, q, cache')
    ensures Step(Operator(')'), frames).Ok?
    ensures Compiling(G, sc, q, cache', overrides, base, outer, Step(Operator(')'), frames).value, parameters) == Sound
  {
    var n' := n.(nodes := g);
    CompilingExtends(G, sc, n, cache, overrides, base, outer, frames, parameters, g, cache');
    BracketCompiles(G, sc, n', cache', overrides, base, outer, frames, parameters);
    var o := Machine(g, Front(n.stack));
    var body := CalledBody(G, Last(frames).call, Wrap(ExpandAll(G, Last(frames).items, sc.env, sc.level)));
    StillRepresents(g, cache', outer + Ids(n.stack), g, cache', outer + Ids(o.stack), id, body);
    assert Expand(G, CloseFrame(Last(frames)), sc.env, sc.level) == body;
    ItemCompiles(G, sc, o, cache', overrides, base, outer, Front(frames), parameters, id, CloseFrame(Last(frames)));
    q := AddItem(o, id).value;
    AdvancesTwice(base, outer, m, cache, n, cache, n', cache');
    AdvancesTwice(base, outer, m, cache, n', cache', o, cache');
    AdvancesTwice(base, outer, m, cache, o, cache', q, cache');
  }

  class MatcherFactory {
    var nodes: Graph
    var matchers: map<string, nat>
    var keywordOverrides: map<string, nat>

    constructor ()
      ensures nodes == [] && matchers == map[] && keywordOverrides == map[]
    {
      nodes, matchers, keywordOverrides := [], map[], map[];
    }

    method Allocate(node: Matcher) returns (id: nat)
      modifies this`nodes
      ensures id == |old(nodes)| && nodes == old(nodes) + [node]
    {
      id := |nodes|;
      nodes := nodes + [node];
    }

    method Keyword(text: string) returns (id: nat)
      requires KeywordsValid(nodes, keywordOverrides, |nodes|, {})
      modifies this`nodes
      ensures if LowerAll(text) in keywordOverrides
              then id == keywordOverrides[LowerAll(text)] && nodes == old(nodes)
              else id == |old(nodes)| && nodes == old(nodes) + [Leaf(PegMatcher.Keyword(text))]
    {
      if LowerAll(text) in keywordOverrides {
        id := keywordOverrides[LowerAll(text)];
      } else {
        id := Allocate(Leaf(PegMatcher.Keyword(text)));
      }
    }

    /** Compiles a rule. `parameters` holds the compiled argument of a call, which represents
        `argument`; `open` are the matchers under construction in the callers. */
    method CreateMatcher(rules: map<string, Rule>, ruleName: string, parameters: seq<nat>,
                         ghost G: Grammar, ghost argument: Pattern, ghost open: set<nat>) returns (r: Result<nat>)
      requires rules == G.rules && CallsDescend(G) && |parameters| <= 1
      requires if parameters == [] then RuleRanked(G, ruleName) else ruleName != "" && (IsMacro(rules, ruleName) ==> ruleName in G.rank)
      requires FactoryValid(G, nodes, matchers, keywordOverrides, open)
      requires parameters != [] ==> Represents(nodes, matchers, open, parameters[0], argument)
      modifies this`nodes, this`matchers
      ensures r.Ok? ==>
                FactoryValid(G, nodes, matchers, keywordOverrides, open) && old(nodes) <= nodes &&
                CacheGrows(old(matchers), matchers, |old(nodes)|)
      ensures r.Ok? && parameters == [] ==> Represents(nodes, matchers, open, r.value, PReference(ruleName))
      ensures r.Ok? && parameters != [] ==>
                CallOk(G, ruleName) && Represents(nodes, matchers, open, r.value, CalledBody(G, ruleName, argument))
      ensures r.Err? ==> !GrammarOk(G) || !Defined(G, ruleName, |parameters|)
      decreases G.rules.Keys - matchers.Keys, if parameters == [] then 0 else CallMeasure(G, ruleName), 0
    {
      var isFunctionCall := parameters != [];
      if !isFunctionCall && ruleName in matchers {
        assert CacheEntry(G, nodes, matchers, open, ruleName);
        return Ok(matchers[ruleName]);
      }
      if ruleName !in rules {
        return Err("rule is missing");
      }
      ghost var before := nodes;
      var matcher := Allocate(List([]));
      if !isFunctionCall {
        matchers := matchers[ruleName := matcher];
      }
      var rule := rules[ruleName];
      if |rule.parameters| > 1 {
        return Err("Only functions with a single parameter are supported");
      }
      if |parameters| != |rule.parameters| {
        return Err("Parameter count mismatch");
      }
      assert isFunctionCall || (ruleName !in G.rules.Keys - matchers.Keys && ruleName in G.rules.Keys - old(matchers).Keys);
      var error := CompileRule(rules, ruleName, matcher, parameters, G, argument, open, before, old(matchers));
      if error.Some? {
        return Err(error.value);
      }
      r := Ok(matcher);
    }

    /** Compiles the tokens of a rule into its list, which is the last matcher and in the cache unless the rule is called. */
    method CompileRule(rules: map<string, Rule>, ruleName: string, matcher: nat, parameters: seq<nat>,
                       ghost G: Grammar, ghost argument: Pattern, ghost open: set<nat>, ghost before: Graph,
                       ghost before': map<string, nat>) returns (error: Option<string>)
      requires rules == G.rules && CallsDescend(G) && ruleName in rules && ruleName in G.rank
      requires |parameters| == |rules[ruleName].parameters| <= 1
      requires FactoryValid(G, before, before', keywordOverrides, open) && (parameters == [] ==> ruleName !in before')
      requires parameters != [] ==> Represents(before, before', open, parameters[0], argument)
      requires nodes == before + [List([])] && matcher == |before|
      requires matchers == if parameters == [] then before'[ruleName := matcher] else before'
      modifies this`nodes, this`matchers
      ensures error.None? ==>
                FactoryValid(G, nodes, matchers, keywordOverrides, open) && before <= nodes && CacheGrows(before', matchers, |before|)
      ensures error.None? && parameters == [] ==> Represents(nodes, matchers, open, matcher, PReference(ruleName))
      ensures error.None? && parameters != [] ==>
                CallOk(G, ruleName) && Represents(nodes, matchers, open, matcher, CalledBody(G, ruleName, argument))
      ensures error.Some? ==> !GrammarOk(G)
      decreases G.rules.Keys - matchers.Keys, 3 * G.rank[ruleName] + 2, 7
    {
      var list := new MatcherList(matcher);
      var rule := rules[ruleName];
      ghost var env := if parameters != [] then Some(Binding(rule.parameters[0], argument)) else None;
      ghost var sc := Scope(env, G.rank[ruleName]);
      StartCompiles(G, sc, before, before', matchers, keywordOverrides, open, ruleName, parameters, nodes);
      assert Machine(nodes, [Entry(|before|, "")]) == list.View(this);
      ghost var frames;
      ghost var cache := matchers;
      CachedBelow(G, before, before', open);
      error, frames := CompileTokens(list, rules, rule, parameters, G, sc, |before|, open, ruleName);
      if error.None? {
        CacheGrowsTwice(before', cache, matchers, |before|);
        OnlyThisRule(before', cache, matchers, |before|, ruleName);
        RuleCompiled(G, sc, list.View(this), matchers, keywordOverrides, |before|, open, frames, parameters, ruleName);
      }
    }

    /** Compiles the tokens of a rule into the list at the bottom of the stack. */
    method CompileTokens(list: MatcherList, rules: map<string, Rule>, rule: Rule, parameters: seq<nat>,
                         ghost G: Grammar, ghost sc: Scope, ghost base: nat, ghost open: set<nat>, ghost ruleName: string)
      returns (error: Option<string>, ghost frames: seq<Frame>)
      requires rules == G.rules && CallsDescend(G) && ruleName in G.rules && ruleName in G.rank && rule == G.rules[ruleName]
      requires sc.level == G.rank[ruleName] && |rule.parameters| == |parameters|
      requires sc.env.Some? ==> rule.parameters == [sc.env.value.parameter]
      requires Compiling(G, sc, list.View(this), matchers, keywordOverrides, base, open, ROOT, parameters) == Sound
      modifies list, this`nodes, this`matchers
      ensures error.None? ==>
                |list.matchers| == 1 && Elaborate(rule.tokens, ROOT) == Ok(frames) &&
                Compiling(G, sc, list.View(this), matchers, keywordOverrides, base, open, frames, parameters) == Sound &&
                Advances(base, open, old(list.View(this)), old(matchers), list.View(this), matchers)
      ensures error.Some? ==> !GrammarOk(G)
      decreases G.rules.Keys - matchers.Keys, 3 * sc.level + 2, 6
    {
      frames := ROOT;
      ghost var m, cache := list.View(this), matchers;
      CompilingStays(G, sc, m, cache, keywordOverrides, base, open, frames, parameters);
      for tokenIdx := 0 to |rule.tokens|
        invariant Compiling(G, sc, list.View(this), matchers, keywordOverrides, base, open, frames, parameters) == Sound
        invariant Advances(base, open, m, cache, list.View(this), matchers)
        invariant frames != [] && Elaborate(rule.tokens, ROOT) == Elaborate(rule.tokens[tokenIdx..], frames)
        invariant GrammarOk(G) ==> FramesDefined(G, frames)
      {
        ghost var n, cache' := list.View(this), matchers;
        error, frames := CompileNext(list, rules, rule, parameters, tokenIdx, G, sc, base, open, frames, ruleName);
        if error.Some? {
          return;
        }
        AdvancesTwice(base, open, m, cache, n, cache', list.View(this), matchers);
      }
      if |list.matchers| != 1 {
        UnclosedBracket(G, sc, list.View(this), matchers, keywordOverrides, base, open, frames, parameters);
        assert GrammarOk(G) ==> RuleOk(G, rule);
        return Some("PEG matcher create error - unclosed bracket found"), frames;
      }
      error := None;
    }

    /** The next token of the rule. */
    method CompileNext(list: MatcherList, rules: map<string, Rule>, rule: Rule, parameters: seq<nat>, tokenIdx: nat,
                       ghost G: Grammar, ghost sc: Scope, ghost base: nat, ghost open: set<nat>, ghost frames: seq<Frame>,
                       ghost ruleName: string)
      returns (error: Option<string>, ghost next: seq<Frame>)
      requires rules == G.rules && CallsDescend(G) && ruleName in G.rules && ruleName in G.rank && rule == G.rules[ruleName]
      requires sc.level == G.rank[ruleName] && |rule.parameters| == |parameters| && tokenIdx < |rule.tokens|
      requires sc.env.Some? ==> rule.parameters == [sc.env.value.parameter]
      requires Compiling(G, sc, list.View(this), matchers, keywordOverrides, base, open, frames, parameters) == Sound
      requires frames != [] && Elaborate(rule.tokens, ROOT) == Elaborate(rule.tokens[tokenIdx..], frames)
      requires GrammarOk(G) ==> FramesDefined(G, frames)
      modifies list, this`nodes, this`matchers
      ensures error.None? ==>
                next != [] && Elaborate(rule.tokens, ROOT) == Elaborate(rule.tokens[tokenIdx + 1..], next) &&
                (GrammarOk(G) ==> FramesDefined(G, next)) &&
                Compiling(G, sc, list.View(this), matchers, keywordOverrides, base, open, next, parameters) == Sound &&
                Advances(base, open, old(list.View(this)), old(matchers), list.View(this), matchers)
      ensures error.Some? ==> !GrammarOk(G)
      decreases G.rules.Keys - matchers.Keys, 3 * sc.level + 2, 5
    {
      NextToken(rule.tokens, tokenIdx, frames);
      assert TokenBelow(G, rule, rule.tokens[tokenIdx], sc.level);
      assert GrammarOk(G) ==> RuleOk(G, rule) && TokenOk(G, rule, rule.tokens[tokenIdx]);
      error := CompileToken(list, rules, rule, parameters, rule.tokens[tokenIdx], G, sc, base, open, frames);
      if error.None? {
        if GrammarOk(G) {
          StepDefined(G, rule, rule.tokens[tokenIdx], frames);
        }
        next := Step(rule.tokens[tokenIdx], frames).value;
      } else {
        next := frames;
      }
    }

    /** Adds the matcher for one token of the rule. */
    method CompileToken(list: MatcherList, rules: map<string, Rule>, rule: Rule, parameters: seq<nat>, token: PegToken,
                        ghost G: Grammar, ghost sc: Scope, ghost base: nat, ghost outer: set<nat>, ghost frames: seq<Frame>)
      returns (error: Option<string>)
      requires rules == G.rules && CallsDescend(G) && TokenBelow(G, rule, token, sc.level)
      requires |rule.parameters| == |parameters|
      requires sc.env.Some? ==> rule.parameters == [sc.env.value.parameter]
      requires Compiling(G, sc, list.View(this), matchers, keywordOverrides, base, outer, frames, parameters) == Sound
      modifies list, this`nodes, this`matchers
      ensures error.None? ==>
                Step(token, frames).Ok? &&
                Compiling(G, sc, list.View(this), matchers, keywordOverrides, base, outer, Step(token, frames).value,
                          parameters) == Sound &&
                Advances(base, outer, old(list.View(this)), old(matchers), list.View(this), matchers)
      ensures error.Some? ==>
                Step(token, frames).Err? || !GrammarOk(G) || !TokenOk(G, rule, token) || !FramesDefined(G, frames)
      decreases G.rules.Keys - matchers.Keys, 3 * sc.level + 2, 4
    {
      ghost var m, cache := list.View(this), matchers;
      match token
      case Literal(text) =>
        ghost var n, id', q := LiteralCompiles(G, sc, m, cache, keywordOverrides, base, outer, frames, parameters, text);
        var id := Keyword(text);
        error := list.AddMatcher(this, id);
      case Reference(name) =>
        error := CompileReference(list, rules, rule, parameters, name, G, sc, base, outer, frames);
      case FunctionCall(name) =>
        BeginListCompiles(G, sc, m, cache, keywordOverrides, base, outer, frames, parameters, name);
        list.BeginList(this, name);
        error := None;
      case Regex(_) => error := Some("REGEX operator not supported in PEG grammar");
      case Operator(op) =>
        error := CompileOperator(list, rules, op, G, sc, base, outer, frames, parameters);
    }

    method CompileOperator(list: MatcherList, rules: map<string, Rule>, op: char, ghost G: Grammar, ghost sc: Scope,
                           ghost base: nat, ghost outer: set<nat>, ghost frames: seq<Frame>, ghost parameters: seq<nat>)
      returns (error: Option<string>)
      requires rules == G.rules && CallsDescend(G)
      requires Compiling(G, sc, list.View(this), matchers, keywordOverrides, base, outer, frames, parameters) == Sound
      modifies list, this`nodes, this`matchers
      ensures error.None? ==>
                Step(Operator(op), frames).Ok? &&
                Compiling(G, sc, list.View(this), matchers, keywordOverrides, base, outer, Step(Operator(op), frames).value,
                          parameters) == Sound &&
                Advances(base, outer, old(list.View(this)), old(matchers), list.View(this), matchers)
      ensures error.Some? ==> Step(Operator(op), frames).Err? || !GrammarOk(G) || !FramesDefined(G, frames)
      decreases G.rules.Keys - matchers.Keys, 3 * sc.level + 2, 3
    {
      if op == '?' || op == '*' || op == '/' {
        error := CompilePostfix(list, op, G, sc, base, outer, frames, parameters);
      } else if op == '(' {
        BeginListCompiles(G, sc, list.View(this), matchers, keywordOverrides, base, outer, frames, parameters, "");
        list.BeginList(this, "");
        error := None;
      } else if op == ')' {
        error := list.CloseBracket(this, rules, G, sc, base, outer, frames, parameters);
      } else if op == '!' {
        // NOT is ignored
        CompilingStays(G, sc, list.View(this), matchers, keywordOverrides, base, outer, frames, parameters);
        error := None;
      } else {
        error := Some("unrecognized peg operator type");
      }
    }

    /** The operators that change the last item. */
    method CompilePostfix(list: MatcherList, op: char, ghost G: Grammar, ghost sc: Scope, ghost base: nat,
                          ghost outer: set<nat>, ghost frames: seq<Frame>, ghost parameters: seq<nat>)
      returns (error: Option<string>)
      requires op == '?' || op == '*' || op == '/'
      requires Compiling(G, sc, list.View(this), matchers, keywordOverrides, base, outer, frames, parameters) == Sound
      modifies list, this`nodes
      ensures error.None? ==>
                Step(Operator(op), frames).Ok? &&
                Compiling(G, sc, list.View(this), matchers, keywordOverrides, base, outer, Step(Operator(op), frames).value,
                          parameters) == Sound &&
                Advances(base, outer, old(list.View(this)), matchers, list.View(this), matchers)
      ensures error.Some? ==> Step(Operator(op), frames).Err?
    {
      if op == '/' {
        ChoiceCompiles(G, sc, list.View(this), matchers, keywordOverrides, base, outer, frames, parameters);
        error := list.MakeLastChoice(this);
      } else {
        OptionalCompiles(G, sc, list.View(this), matchers, keywordOverrides, base, outer, frames, parameters, op);
        error := list.MakeLastOptional(this, op);
      }
    }

    /** A reference to the parameter, or to another rule. */
    method CompileReference(list: MatcherList, rules: map<string, Rule>, rule: Rule, parameters: seq<nat>, name: string,
                            ghost G: Grammar, ghost sc: Scope, ghost base: nat, ghost outer: set<nat>,
                            ghost frames: seq<Frame>)
      returns (error: Option<string>)
      requires rules == G.rules && CallsDescend(G) && |rule.parameters| == |parameters| && (name in rule.parameters || RuleRanked(G, name))
      requires sc.env.Some? ==> rule.parameters == [sc.env.value.parameter]
      requires Compiling(G, sc, list.View(this), matchers, keywordOverrides, base, outer, frames, parameters) == Sound
      modifies list, this`nodes, this`matchers
      ensures error.None? ==>
                Compiling(G, sc, list.View(this), matchers, keywordOverrides, base, outer,
                          PlaceTop(frames, PReference(name)), parameters) == Sound &&
                Advances(base, outer, old(list.View(this)), old(matchers), list.View(this), matchers)
      ensures error.Some? ==> !GrammarOk(G) || !TokenOk(G, rule, Reference(name))
      decreases G.rules.Keys - matchers.Keys, 3 * sc.level + 2, 2
    {
      ghost var m, cache := list.View(this), matchers;
      if name in rule.parameters {
        ItemCompiles(G, sc, m, cache, keywordOverrides, base, outer, frames, parameters, parameters[0], PReference(name));
        error := list.AddMatcher(this, parameters[0]);
      } else {
        error := CompileRuleReference(list, rules, parameters, name, G, sc, base, outer, frames);
        assert error.Some? ==> !GrammarOk(G) || !TokenOk(G, rule, Reference(name));
      }
    }

    method CompileRuleReference(list: MatcherList, rules: map<string, Rule>, ghost parameters: seq<nat>, name: string,
                                ghost G: Grammar, ghost sc: Scope, ghost base: nat, ghost outer: set<nat>,
                                ghost frames: seq<Frame>)
      returns (error: Option<string>)
      requires rules == G.rules && CallsDescend(G) && RuleRanked(G, name) && (sc.env.Some? ==> sc.env.value.parameter != name)
      requires Compiling(G, sc, list.View(this), matchers, keywordOverrides, base, outer, frames, parameters) == Sound
      modifies list, this`nodes, this`matchers
      ensures error.None? ==>
                Compiling(G, sc, list.View(this), matchers, keywordOverrides, base, outer,
                          PlaceTop(frames, PReference(name)), parameters) == Sound &&
                Advances(base, outer, old(list.View(this)), old(matchers), list.View(this), matchers)
      ensures error.Some? ==> !GrammarOk(G) || !Defined(G, name, 0)
      decreases G.rules.Keys - matchers.Keys, 3 * sc.level + 2, 1
    {
      ghost var m := list.View(this);
      var r;
      ghost var q;
      r, q := ReferencedMatcher(m, rules, parameters, name, G, sc, base, outer, frames);
      if r.Err? {
        return Some(r.message);
      }
      assert list.View(this) == m.(nodes := nodes);
      error := list.AddMatcher(this, r.value);
      assert error.None? && list.View(this) == q;
    }

    /** The matcher of a rule, and the machine `q` once it has been added. */
    method ReferencedMatcher(ghost m: Machine, rules: map<string, Rule>, ghost parameters: seq<nat>, name: string,
                             ghost G: Grammar, ghost sc: Scope, ghost base: nat, ghost outer: set<nat>,
                             ghost frames: seq<Frame>)
      returns (r: Result<nat>, ghost q: Machine)
      requires rules == G.rules && CallsDescend(G) && RuleRanked(G, name) && m.nodes == nodes
      requires sc.env.Some? ==> sc.env.value.parameter != name
      requires Compiling(G, sc, m, matchers, keywordOverrides, base, outer, frames, parameters) == Sound
      modifies this`nodes, this`matchers
      ensures r.Ok? ==>
                OnTop(m.(nodes := nodes)) && AddItem(m.(nodes := nodes), r.value) == Ok(q) &&
                Compiling(G, sc, q, matchers, keywordOverrides, base, outer, PlaceTop(frames, PReference(name)), parameters) == Sound &&
                Advances(base, outer, m, old(matchers), q, matchers)
      ensures r.Err? ==> !GrammarOk(G) || !Defined(G, name, 0)
      decreases G.rules.Keys - matchers.Keys, 3 * sc.level + 2, 0
    {
      ghost var cache := matchers;
      q := m;
      ValidWhileCompiling(G, sc, m, cache, keywordOverrides, base, outer, frames, parameters);
      r := CreateMatcher(rules, name, [], G, PGroup([]), outer + Ids(m.stack));
      if r.Ok? {
        q := ReferenceCompiles(G, sc, m, cache, keywordOverrides, base, outer, frames, parameters, name, r.value, nodes, matchers);
      }
    }
  }

  /** The stack of matchers under construction. */
  class MatcherList {
    var matchers: seq<Entry>

    constructor (root: nat)
      ensures matchers == [Entry(root, "")]
    {
      matchers := [Entry(root, "")];
    }

    ghost function View(factory: MatcherFactory): Machine
      reads this, factory
    {
      Machine(factory.nodes, matchers)
    }

    method AddMatcher(factory: MatcherFactory, matcher: nat) returns (error: Option<string>)
      requires OnTop(View(factory))
      modifies this, factory`nodes
      ensures match AddItem(old(View(factory)), matcher)
              case Ok(m) => error.None? && View(factory) == m
              case Err(message) => error == Some(message)
    {
      var root := matchers[|matchers| - 1].matcher;
      match factory.nodes[root]
      case List(children) =>
        factory.nodes := factory.nodes[root := List(children + [matcher])];
        error := None;
      case Choice(children) =>
        if |matchers| <= 1 {
          return Some("Choice matcher should never be the root in the matcher stack");
        }
        factory.nodes := factory.nodes[root := Choice(children + [matcher])];
        matchers := matchers[..|matchers| - 1];
        error := None;
      case _ =>
        error := Some("Cannot add matcher to root matcher of this type");
    }

    method BeginList(factory: MatcherFactory, functionName: string)
      modifies this, factory`nodes
      ensures View(factory) == OpenList(old(View(factory)), functionName)
    {
      var list := factory.Allocate(List([]));
      matchers := matchers + [Entry(list, functionName)];
    }

    method MakeLastOptional(factory: MatcherFactory, op: char) returns (error: Option<string>)
      requires OnTop(View(factory))
      modifies factory`nodes
      ensures match MakeOptional(old(View(factory)), op)
              case Ok(m) => error.None? && View(factory) == m
              case Err(message) => error == Some(message)
    {
      var last := matchers[|matchers| - 1].matcher;
      if !factory.nodes[last].List? {
        return Some("Optional/Repeat expected a list matcher");
      }
      var children := factory.nodes[last].children;
      if children == [] {
        return Some("Optional/Repeat rule found as first token");
      }
      var finalMatcher := children[|children| - 1];
      if op == '*' {
        finalMatcher := factory.Allocate(Repeat(finalMatcher));
      }
      var replaced := factory.Allocate(Optional(finalMatcher));
      factory.nodes := factory.nodes[last := List(children[..|children| - 1] + [replaced])];
      error := None;
    }

    method MakeLastChoice(factory: MatcherFactory) returns (error: Option<string>)
      requires OnTop(View(factory))
      modifies this, factory`nodes
      ensures match BeginChoice(old(View(factory)))
              case Ok(m) => error.None? && View(factory) == m
              case Err(message) => error == Some(message)
    {
      var last := matchers[|matchers| - 1].matcher;
      if !factory.nodes[last].List? {
        return Some("OR expected a list matcher");
      }
      var children := factory.nodes[last].children;
      if children == [] {
        return Some("OR rule found as first token");
      }
      var choice := factory.Allocate(Choice([children[|children| - 1]]));
      factory.nodes := factory.nodes[last := List(children[..|children| - 1] + [choice])];
      matchers := matchers + [Entry(choice, "")];
      error := None;
    }

    /** Removes the matcher on top and adds `matcher` to what is below it. */
    method ReplaceTop(factory: MatcherFactory, matcher: nat) returns (error: Option<string>)
      requires |matchers| > 1 && OnTop(View(factory).(stack := Front(matchers)))
      modifies this, factory`nodes
      ensures match AddItem(old(View(factory).(stack := Front(matchers))), matcher)
              case Ok(m) => error.None? && View(factory) == m
              case Err(message) => error == Some(message)
    {
      matchers := matchers[..|matchers| - 1];
      error := AddMatcher(factory, matcher);
    }

    /** ')': the bracket or the call on top becomes an item of what is below it. */
    method CloseBracket(factory: MatcherFactory, rules: map<string, Rule>, ghost G: Grammar, ghost sc: Scope,
                        ghost base: nat, ghost outer: set<nat>, ghost frames: seq<Frame>, ghost parameters: seq<nat>)
      returns (error: Option<string>)
      requires rules == G.rules && CallsDescend(G)
      requires Compiling(G, sc, View(factory), factory.matchers, factory.keywordOverrides, base, outer, frames, parameters) == Sound
      modifies this, factory`nodes, factory`matchers
      ensures var step := Step(Operator(')'), frames);
              error.None? ==>
                step.Ok? &&
                Compiling(G, sc, View(factory), factory.matchers, factory.keywordOverrides, base, outer, step.value, parameters) == Sound &&
                Advances(base, outer, old(View(factory)), old(factory.matchers), View(factory), factory.matchers)
      ensures error.Some? ==>
                Step(Operator(')'), frames).Err? || !GrammarOk(G) || !FramesDefined(G, frames)
      decreases G.rules.Keys - factory.matchers.Keys, 3 * sc.level + 2, 2
    {
      ghost var m, cache, overrides := View(factory), factory.matchers, factory.keywordOverrides;
      TopMatcher(G, sc, m, cache, base, outer, frames);
      if |matchers| <= 1 {
        BottomFrame(G, sc, m, cache, base, outer, frames);
        return Some("PEG matcher create error - found too many close brackets");
      }
      var top := matchers[|matchers| - 1];
      if top.functionName == "" {
        // a plain bracket
        ghost var q := GroupCompiles(G, sc, m, cache, overrides, base, outer, frames, parameters);
        error := ReplaceTop(factory, top.matcher);
      } else {
        error := CloseCall(factory, rules, top, G, sc, base, outer, frames, parameters);
      }
    }

    /** The only item of the list, or all of them as a list. */
    method Argument(factory: MatcherFactory, list: nat) returns (parameter: nat)
      requires list < |factory.nodes| && factory.nodes[list].List?
      modifies factory`nodes
      ensures var children := old(factory.nodes)[list].children;
              if |children| == 1 then parameter == children[0] && factory.nodes == old(factory.nodes)
              else parameter == |old(factory.nodes)| && factory.nodes == old(factory.nodes) + [List(children)]
    {
      var children := factory.nodes[list].children;
      if |children| == 1 {
        parameter := children[0];
      } else {
        parameter := factory.Allocate(List(children));
      }
    }

    method CloseCall(factory: MatcherFactory, rules: map<string, Rule>, top: Entry, ghost G: Grammar, ghost sc: Scope,
                     ghost base: nat, ghost outer: set<nat>, ghost frames: seq<Frame>, ghost parameters: seq<nat>)
      returns (error: Option<string>)
      requires rules == G.rules && CallsDescend(G)
      requires |matchers| > 1 && top == Last(matchers) && top.functionName != ""
      requires Compiling(G, sc, View(factory), factory.matchers, factory.keywordOverrides, base, outer, frames, parameters) == Sound
      modifies this, factory`nodes, factory`matchers
      ensures error.None? ==>
                Step(Operator(')'), frames).Ok? &&
                Compiling(G, sc, View(factory), factory.matchers, factory.keywordOverrides, base, outer,
                          Step(Operator(')'), frames).value, parameters) == Sound &&
                Advances(base, outer, old(View(factory)), old(factory.matchers), View(factory), factory.matchers)
      ensures error.Some? ==> !GrammarOk(G) || !FramesDefined(G, frames)
      decreases G.rules.Keys - factory.matchers.Keys, 3 * sc.level + 2, 1
    {
      ghost var m := View(factory);
      var call;
      ghost var q;
      call, q := CalledMatcher(factory, rules, top, G, sc, base, outer, frames, parameters);
      if call.Err? {
        return Some(call.message);
      }
      assert View(factory).(stack := Front(matchers)) == Machine(factory.nodes, Front(m.stack));
      error := ReplaceTop(factory, call.value);
      assert error.None? && View(factory) == q;
    }

    /** The matcher of a call for its argument, and the machine `q` once it has replaced the call. */
    method CalledMatcher(factory: MatcherFactory, rules: map<string, Rule>, top: Entry, ghost G: Grammar, ghost sc: Scope,
                         ghost base: nat, ghost outer: set<nat>, ghost frames: seq<Frame>, ghost parameters: seq<nat>)
      returns (call: Result<nat>, ghost q: Machine)
      requires rules == G.rules && CallsDescend(G)
      requires |matchers| > 1 && top == Last(matchers) && top.functionName != ""
      requires Compiling(G, sc, View(factory), factory.matchers, factory.keywordOverrides, base, outer, frames, parameters) == Sound
      modifies factory`nodes, factory`matchers
      ensures call.Ok? ==>
                OnTop(Machine(factory.nodes, Front(matchers))) &&
                AddItem(Machine(factory.nodes, Front(matchers)), call.value) == Ok(q) && Step(Operator(')'), frames).Ok? &&
                Compiling(G, sc, q, factory.matchers, factory.keywordOverrides, base, outer, Step(Operator(')'), frames).value,
                          parameters) == Sound &&
                Advances(base, outer, old(View(factory)), old(factory.matchers), q, factory.matchers)
      ensures call.Err? ==> !GrammarOk(G) || !FramesDefined(G, frames)
      decreases G.rules.Keys - factory.matchers.Keys, 3 * sc.level + 2, 0
    {
      ghost var m, cache, overrides := View(factory), factory.matchers, factory.keywordOverrides;
      ghost var n, parameter' := ArgumentCompiles(G, sc, m, cache, overrides, base, outer, frames, parameters);
      var parameter := Argument(factory, top.matcher);
      q := n;
      call := factory.CreateMatcher(rules, top.functionName, [parameter], G,
                                    Wrap(ExpandAll(G, Last(frames).items, sc.env, sc.level)), outer + Ids(n.stack));
      if call.Ok? {
        q := CallCompiles(G, sc, m, n, cache, overrides, base, outer, frames, parameters, call.value,
                          factory.nodes, factory.matchers);
      }
    }
  }
}
