/** The matcher factory: it compiles the rules of a grammar into a graph of matchers by editing
    the child lists of the matchers on a stack, and caches rules so that they can be recursive. */
module PegCompiler {
  import opened Common
  import opened PegMatcher
  import opened PegSoundness
  import opened PegPattern
  import opened PegExpansion

  // ----- what a matcher represents -----------------------------------------------------------------

  /** Matcher `id` of the graph is the expanded pattern `p`. A reference is the matcher cached for
      the rule, whether or not that is finished; everything else must not be under construction
      (`open`). */
  ghost predicate Represents(g: Graph, cache: map<string, nat>, open: set<nat>, id: nat, p: Pattern)
    decreases p
  {
    id < |g| &&
    match p
    case PReference(name) => name in cache && cache[name] == id
    case PKeyword(text) =>
      id !in open && g[id].Leaf? && g[id].terminal.Keyword? && CIEquals(g[id].terminal.text, text)
    case PGroup(items) => id !in open && g[id].List? && RepresentsAll(g, cache, open, g[id].children, items)
    case POptional(q) => id !in open && g[id].Optional? && Represents(g, cache, open, g[id].child, q)
    case PRepeat(q) => id !in open && g[id].Repeat? && Represents(g, cache, open, g[id].child, q)
    case PChoice(ps) => id !in open && g[id].Choice? && RepresentsAll(g, cache, open, g[id].children, ps)
    case PCall(_, _) => false
  }

  ghost predicate RepresentsAll(g: Graph, cache: map<string, nat>, open: set<nat>, ids: seq<nat>, ps: seq<Pattern>)
    decreases ps, 0
  {
    |ids| == |ps| && forall i :: 0 <= i < |ps| ==> Represents(g, cache, open, ids[i], ps[i])
  }

  /** Nothing but open matchers changed, and no finished matcher was opened. */
  ghost predicate Grows(g: Graph, cache: map<string, nat>, open: set<nat>, g': Graph, cache': map<string, nat>, open': set<nat>) {
    |g| <= |g'| &&
    (forall i :: 0 <= i < |g| && i !in open ==> g'[i] == g[i] && i !in open') &&
    (forall name :: name in cache ==> name in cache' && cache'[name] == cache[name])
  }

  lemma {:induction false} StillRepresents(g: Graph, cache: map<string, nat>, open: set<nat>,
                                           g': Graph, cache': map<string, nat>, open': set<nat>, id: nat, p: Pattern)
    requires Grows(g, cache, open, g', cache', open') && Represents(g, cache, open, id, p)
    ensures Represents(g', cache', open', id, p)
    decreases p
  {
    match p
    case PReference(_) =>
    case PKeyword(_) =>
    case PGroup(items) => StillRepresentsAll(g, cache, open, g', cache', open', g[id].children, items);
    case POptional(q) => StillRepresents(g, cache, open, g', cache', open', g[id].child, q);
    case PRepeat(q) => StillRepresents(g, cache, open, g', cache', open', g[id].child, q);
    case PChoice(ps) => StillRepresentsAll(g, cache, open, g', cache', open', g[id].children, ps);
  }

  lemma {:induction false} StillRepresentsAll(g: Graph, cache: map<string, nat>, open: set<nat>, g': Graph,
                                              cache': map<string, nat>, open': set<nat>, ids: seq<nat>, ps: seq<Pattern>)
    requires Grows(g, cache, open, g', cache', open') && RepresentsAll(g, cache, open, ids, ps)
    ensures RepresentsAll(g', cache', open', ids, ps)
    decreases ps, 0
  {
    forall i | 0 <= i < |ps|
      ensures Represents(g', cache', open', ids[i], ps[i])
    {
      StillRepresents(g, cache, open, g', cache', open', ids[i], ps[i]);
    }
  }

  /** A cached matcher is a built-in one, is still open, or is its rule. */
  ghost predicate CacheEntry(G: Grammar, g: Graph, cache: map<string, nat>, open: set<nat>, name: string)
    requires name in cache
  {
    var id := cache[name];
    id < |g| &&
    if name in G.terminals then id !in open && g[id] == Leaf(G.terminals[name])
    else name in G.rules && |G.rules[name].parameters| == 0 &&
         (id in open || Represents(g, cache, open, id, PGroup(RuleItems(G, name))))
  }

  ghost predicate CacheValid(G: Grammar, g: Graph, cache: map<string, nat>, open: set<nat>) {
    (forall name :: name in cache ==> CacheEntry(G, g, cache, open, name)) &&
    (forall name :: name in G.terminals ==> name in cache)
  }

  /** The cache stays valid as long as open rules stay open. */
  lemma CacheStaysValid(G: Grammar, g: Graph, cache: map<string, nat>, open: set<nat>, g': Graph, open': set<nat>)
    requires CacheValid(G, g, cache, open) && Grows(g, cache, open, g', cache, open')
    requires forall name :: name in cache && cache[name] in open ==> cache[name] in open'
    ensures CacheValid(G, g', cache, open')
  {
    forall name | name in cache
      ensures CacheEntry(G, g', cache, open', name)
    {
      var id := cache[name];
      assert CacheEntry(G, g, cache, open, name);
      if name !in G.terminals && id !in open {
        StillRepresents(g, cache, open, g', cache, open', id, PGroup(RuleItems(G, name)));
      }
    }
  }

  // ----- the stack -------------------------------------------------------------------------------------

  datatype Entry = Entry(matcher: nat, functionName: string)

  ghost function Ids(stack: seq<Entry>): set<nat> {
    set i | 0 <= i < |stack| :: stack[i].matcher
  }

  /** The rule being compiled: its binding and the rank its calls stay below. */
  datatype Scope = Scope(env: Option<Binding>, level: nat)

  /** The list matcher `l` holds the items of frame `f`; `tail` replaces the last item. */
  ghost predicate ListHolds(G: Grammar, sc: Scope, g: Graph, cache: map<string, nat>, open: set<nat>, l: nat, items: seq<Pattern>)
  {
    l < |g| && g[l].List? && RepresentsAll(g, cache, open, g[l].children, ExpandAll(G, items, sc.env, sc.level))
  }

  /** An awaiting frame has its choice on the stack above its list. */
  ghost predicate StackHolds(G: Grammar, sc: Scope, g: Graph, cache: map<string, nat>, open: set<nat>,
                             stack: seq<Entry>, frames: seq<Frame>)
    decreases |frames|
  {
    if frames == [] then stack == []
    else
      var f := Last(frames);
      if f.awaiting then
        |stack| >= 2 && f.items != [] &&
        var choice, list := Last(stack), Last(Front(stack));
        choice.functionName == "" && list.functionName == f.call &&
        AwaitingHolds(G, sc, g, cache, open, list.matcher, choice.matcher, f.items) &&
        StackHolds(G, sc, g, cache, open, Front(Front(stack)), Front(frames))
      else
        |stack| >= 1 && Last(stack).functionName == f.call &&
        ListHolds(G, sc, g, cache, open, Last(stack).matcher, f.items) &&
        StackHolds(G, sc, g, cache, open, Front(stack), Front(frames))
  }

  /** The last child of list `l` is the choice `c`, which has its first alternative. */
  ghost predicate AwaitingHolds(G: Grammar, sc: Scope, g: Graph, cache: map<string, nat>, open: set<nat>,
                                l: nat, c: nat, items: seq<Pattern>)
    requires items != []
  {
    l < |g| && c < |g| && g[l].List? && g[l].children != [] && Last(g[l].children) == c &&
    RepresentsAll(g, cache, open, Front(g[l].children), ExpandAll(G, Front(items), sc.env, sc.level)) &&
    g[c].Choice? && |g[c].children| == 1 &&
    Represents(g, cache, open, g[c].children[0], Expand(G, Last(items), sc.env, sc.level))
  }

  ghost predicate Distinct(stack: seq<Entry>) {
    forall i, j :: 0 <= i < j < |stack| ==> stack[i].matcher != stack[j].matcher
  }

  /** The lower part of the stack is not affected by changes to matchers that are not on it. */
  lemma {:induction false} StackStillHolds(G: Grammar, sc: Scope, g: Graph, cache: map<string, nat>, open: set<nat>,
                                           g': Graph, cache': map<string, nat>, open': set<nat>,
                                           stack: seq<Entry>, frames: seq<Frame>)
    requires StackHolds(G, sc, g, cache, open, stack, frames) && Grows(g, cache, open, g', cache', open')
    requires forall i :: 0 <= i < |stack| && stack[i].matcher < |g| ==> g'[stack[i].matcher] == g[stack[i].matcher]
    ensures StackHolds(G, sc, g', cache', open', stack, frames)
    decreases |frames|
  {
    if frames != [] {
      var f := Last(frames);
      if f.awaiting {
        var l, c := Last(Front(stack)).matcher, Last(stack).matcher;
        assert g'[l] == g[l] && g'[c] == g[c];
        StillRepresentsAll(g, cache, open, g', cache', open', Front(g[l].children),
                           ExpandAll(G, Front(f.items), sc.env, sc.level));
        StillRepresents(g, cache, open, g', cache', open', g[c].children[0],
                        Expand(G, Last(f.items), sc.env, sc.level));
        StackStillHolds(G, sc, g, cache, open, g', cache', open', Front(Front(stack)), Front(frames));
      } else {
        var l := Last(stack).matcher;
        assert g'[l] == g[l];
        StillRepresentsAll(g, cache, open, g', cache', open', g[l].children,
                           ExpandAll(G, f.items, sc.env, sc.level));
        StackStillHolds(G, sc, g, cache, open, g', cache', open', Front(stack), Front(frames));
      }
    }
  }

  // ----- one step of the compilation ----------------------------------------------------------------

  /** The state while a rule is compiled: `stack` holds the frames, everything outside it and
      outside the callers' open matchers (all below `base`) is finished. Only the bottom of the
      stack can be a cached rule. */
  ghost predicate Building(G: Grammar, sc: Scope, g: Graph, cache: map<string, nat>, base: nat, outer: set<nat>,
                           stack: seq<Entry>, frames: seq<Frame>)
  {
    frames != [] && Closed(g) && Distinct(stack) &&
    (forall i :: i in outer ==> i < base) &&
    (forall i :: 0 <= i < |stack| ==> base <= stack[i].matcher < |g|) &&
    (forall name, i :: name in cache && 1 <= i < |stack| ==> cache[name] != stack[i].matcher) &&
    CacheValid(G, g, cache, outer + Ids(stack)) &&
    StackHolds(G, sc, g, cache, outer + Ids(stack), stack, frames)
  }

  lemma IdsOfFront(stack: seq<Entry>)
    requires stack != []
    ensures Ids(stack) == Ids(Front(stack)) + {Last(stack).matcher}
    ensures Distinct(stack) ==> Last(stack).matcher !in Ids(Front(stack))
  {
    forall id | id in Ids(stack)
      ensures id in Ids(Front(stack)) + {Last(stack).matcher}
    {
      var i :| 0 <= i < |stack| && stack[i].matcher == id;
      assert i < |stack| - 1 ==> Front(stack)[i].matcher == id;
    }
    forall id | id in Ids(Front(stack))
      ensures id in Ids(stack)
    {
      var i :| 0 <= i < |stack| - 1 && Front(stack)[i].matcher == id;
      assert stack[i].matcher == id;
    }
    assert stack[|stack| - 1].matcher in Ids(stack);
  }

  lemma InIds(stack: seq<Entry>)
    ensures forall i :: 0 <= i < |stack| ==> stack[i].matcher in Ids(stack)
  {
  }

  lemma ExpandAllAppend(G: Grammar, sc: Scope, ps: seq<Pattern>, p: Pattern)
    ensures ExpandAll(G, ps + [p], sc.env, sc.level) == ExpandAll(G, ps, sc.env, sc.level) + [Expand(G, p, sc.env, sc.level)]
  {
  }

  /** An item is appended to the list on top. */
  lemma AddToList(G: Grammar, sc: Scope, g: Graph, cache: map<string, nat>, base: nat, outer: set<nat>,
                  stack: seq<Entry>, frames: seq<Frame>, m: nat, p: Pattern)
    requires Building(G, sc, g, cache, base, outer, stack, frames) && !Last(frames).awaiting
    requires Represents(g, cache, outer + Ids(stack), m, Expand(G, p, sc.env, sc.level))
    ensures stack != [] && g[Last(stack).matcher].List?
    ensures var l := Last(stack).matcher;
            Building(G, sc, g[l := List(g[l].children + [m])], cache, base, outer, stack, PlaceTop(frames, p))
  {
    var f, l, open := Last(frames), Last(stack).matcher, outer + Ids(stack);
    var g' := g[l := List(g[l].children + [m])];
    InIds(stack);
    assert Grows(g, cache, open, g', cache, open);
    CacheStaysValid(G, g, cache, open, g', open);
    StillRepresents(g, cache, open, g', cache, open, m, Expand(G, p, sc.env, sc.level));
    StillRepresentsAll(g, cache, open, g', cache, open, g[l].children, ExpandAll(G, f.items, sc.env, sc.level));
    ExpandAllAppend(G, sc, f.items, p);
    assert Distinct(stack);
    StackStillHolds(G, sc, g, cache, open, g', cache, open, Front(stack), Front(frames));
    assert Front(PlaceTop(frames, p)) == Front(frames);
    assert ListHolds(G, sc, g', cache, open, l, f.items + [p]);
  }

  /** An item completes the choice on top, which leaves the stack. */
  lemma AddToChoice(G: Grammar, sc: Scope, g: Graph, cache: map<string, nat>, base: nat, outer: set<nat>,
                    stack: seq<Entry>, frames: seq<Frame>, m: nat, p: Pattern)
    requires Building(G, sc, g, cache, base, outer, stack, frames) && Last(frames).awaiting
    requires Represents(g, cache, outer + Ids(stack), m, Expand(G, p, sc.env, sc.level))
    ensures |stack| > 1 && g[Last(stack).matcher].Choice?
    ensures var c := Last(stack).matcher;
            Building(G, sc, g[c := Choice(g[c].children + [m])], cache, base, outer, Front(stack), PlaceTop(frames, p))
  {
    var f, c := Last(frames), Last(stack).matcher;
    var l := Last(Front(stack)).matcher;
    var g' := g[c := Choice(g[c].children + [m])];
    var open, open' := outer + Ids(stack), outer + Ids(Front(stack));
    PopCloses(G, sc, g, cache, base, outer, stack, frames, g');
    ChoiceStack(G, sc, g, cache, open, g', open', stack, frames, m, p);
    assert RefersInto(g[c], |g|);
  }

  /** The list whose last child is the completed choice. */
  lemma ChoiceListHolds(G: Grammar, sc: Scope, g: Graph, cache: map<string, nat>, open: set<nat>, g': Graph, open': set<nat>,
                        l: nat, c: nat, items: seq<Pattern>, m: nat, p: Pattern)
    requires items != [] && AwaitingHolds(G, sc, g, cache, open, l, c, items) && l != c
    requires Represents(g, cache, open, m, Expand(G, p, sc.env, sc.level))
    requires g' == g[c := Choice(g[c].children + [m])]
    requires Grows(g, cache, open, g', cache, open') && c !in open'
    ensures ListHolds(G, sc, g', cache, open', l, Front(items) + [PChoice([Last(items), p])])
  {
    ChoiceCompletes(G, sc, g, cache, open, g', open', c, m, Last(items), p);
    StillRepresentsAll(g, cache, open, g', cache, open', Front(g[l].children), ExpandAll(G, Front(items), sc.env, sc.level));
    ExpandAllAppend(G, sc, Front(items), PChoice([Last(items), p]));
    assert g'[l] == g[l] && g[l].children == Front(g[l].children) + [c];
  }

  /** Below the completed choice the stack stands for the frames with the item in place. */
  lemma ChoiceStack(G: Grammar, sc: Scope, g: Graph, cache: map<string, nat>, open: set<nat>, g': Graph, open': set<nat>,
                    stack: seq<Entry>, frames: seq<Frame>, m: nat, p: Pattern)
    requires frames != [] && Last(frames).awaiting && StackHolds(G, sc, g, cache, open, stack, frames) && Distinct(stack)
    requires Represents(g, cache, open, m, Expand(G, p, sc.env, sc.level))
    requires g' == g[Last(stack).matcher := Choice(g[Last(stack).matcher].children + [m])]
    requires Grows(g, cache, open, g', cache, open') && Last(stack).matcher !in open'
    ensures StackHolds(G, sc, g', cache, open', Front(stack), PlaceTop(frames, p))
  {
    var f, c := Last(frames), Last(stack).matcher;
    ChoiceListHolds(G, sc, g, cache, open, g', open', Last(Front(stack)).matcher, c, f.items, m, p);
    StackStillHolds(G, sc, g, cache, open, g', cache, open', Front(Front(stack)), Front(frames));
    assert Front(PlaceTop(frames, p)) == Front(frames);
  }

  /** Taking the top off the stack makes it a finished matcher. */
  lemma PopCloses(G: Grammar, sc: Scope, g: Graph, cache: map<string, nat>, base: nat, outer: set<nat>,
                  stack: seq<Entry>, frames: seq<Frame>, g': Graph)
    requires Building(G, sc, g, cache, base, outer, stack, frames) && |stack| > 1
    requires |g| <= |g'| && forall i :: 0 <= i < |g| && i != Last(stack).matcher ==> g'[i] == g[i]
    ensures var open, open' := outer + Ids(stack), outer + Ids(Front(stack));
            Grows(g, cache, open, g', cache, open') && CacheValid(G, g', cache, open') &&
            Last(stack).matcher !in open' && open == open' + {Last(stack).matcher}
    ensures Distinct(Front(stack))
  {
    var open, open' := outer + Ids(stack), outer + Ids(Front(stack));
    IdsOfFront(stack);
    InIds(stack);
    assert stack[|stack| - 1] == Last(stack);
    CacheStaysValid(G, g, cache, open, g', open');
  }

  /** The same, while the matcher below the top is edited. */
  lemma PopEdits(G: Grammar, sc: Scope, g: Graph, cache: map<string, nat>, base: nat, outer: set<nat>,
                 stack: seq<Entry>, frames: seq<Frame>, g': Graph)
    requires Building(G, sc, g, cache, base, outer, stack, frames) && |stack| > 1
    requires |g| <= |g'| && forall i :: 0 <= i < |g| && i != Last(Front(stack)).matcher ==> g'[i] == g[i]
    ensures var open, open' := outer + Ids(stack), outer + Ids(Front(stack));
            Grows(g, cache, open, g', cache, open') && CacheValid(G, g', cache, open') && Last(stack).matcher !in open'
    ensures Distinct(Front(stack))
  {
    PopCloses(G, sc, g, cache, base, outer, stack, frames, g);
    InIds(Front(stack));
    CacheStaysValid(G, g, cache, outer + Ids(stack), g', outer + Ids(Front(stack)));
  }

  lemma ChoiceCompletes(G: Grammar, sc: Scope, g: Graph, cache: map<string, nat>, open: set<nat>, g': Graph,
                        open': set<nat>, c: nat, m: nat, a: Pattern, b: Pattern)
    requires Grows(g, cache, open, g', cache, open') && c < |g| && c !in open'
    requires g[c].Choice? && |g[c].children| == 1 && g'[c] == Choice(g[c].children + [m])
    requires Represents(g, cache, open, g[c].children[0], Expand(G, a, sc.env, sc.level))
    requires Represents(g, cache, open, m, Expand(G, b, sc.env, sc.level))
    ensures Represents(g', cache, open', c, Expand(G, PChoice([a, b]), sc.env, sc.level))
  {
    StillRepresents(g, cache, open, g', cache, open', m, Expand(G, b, sc.env, sc.level));
    StillRepresents(g, cache, open, g', cache, open', g[c].children[0], Expand(G, a, sc.env, sc.level));
    ChoiceExpands(G, sc, a, b);
  }

  lemma ChoiceExpands(G: Grammar, sc: Scope, a: Pattern, b: Pattern)
    ensures Expand(G, PChoice([a, b]), sc.env, sc.level)
            == PChoice([Expand(G, a, sc.env, sc.level), Expand(G, b, sc.env, sc.level)])
  {
    var xs := ExpandAll(G, [a, b], sc.env, sc.level);
    assert xs == [xs[0], xs[1]];
  }

  ghost predicate CacheGrows(cache: map<string, nat>, cache': map<string, nat>, from: nat) {
    forall name :: (name in cache ==> name in cache' && cache'[name] == cache[name]) &&
                   (name in cache' && name !in cache ==> cache'[name] >= from)
  }

  /** Matchers and cached rules may be added. */
  lemma Extend(G: Grammar, sc: Scope, g: Graph, cache: map<string, nat>, base: nat, outer: set<nat>,
               stack: seq<Entry>, frames: seq<Frame>, g': Graph, cache': map<string, nat>)
    requires Building(G, sc, g, cache, base, outer, stack, frames)
    requires g <= g' && Closed(g') && CacheGrows(cache, cache', |g|) && CacheValid(G, g', cache', outer + Ids(stack))
    ensures Building(G, sc, g', cache', base, outer, stack, frames)
  {
    var open := outer + Ids(stack);
    assert Grows(g, cache, open, g', cache', open);
    StackStillHolds(G, sc, g, cache, open, g', cache', open, stack, frames);
  }

  lemma ClosedGraphGrows(g: Graph, node: Matcher)
    requires Closed(g) && RefersInto(node, |g|)
    ensures Closed(g + [node])
  {
    forall m | 0 <= m < |g| + 1
      ensures RefersInto((g + [node])[m], |g| + 1)
    {
      assert m < |g| ==> RefersInto(g[m], |g|);
    }
  }

  lemma Allocated(G: Grammar, sc: Scope, g: Graph, cache: map<string, nat>, base: nat, outer: set<nat>,
                  stack: seq<Entry>, frames: seq<Frame>, node: Matcher)
    requires Building(G, sc, g, cache, base, outer, stack, frames) && RefersInto(node, |g|)
    ensures Building(G, sc, g + [node], cache, base, outer, stack, frames)
  {
    ClosedGraphGrows(g, node);
    CacheStaysValid(G, g, cache, outer + Ids(stack), g + [node], outer + Ids(stack));
    Extend(G, sc, g, cache, base, outer, stack, frames, g + [node], cache);
  }

  lemma CachedBelow(G: Grammar, g: Graph, cache: map<string, nat>, open: set<nat>)
    requires CacheValid(G, g, cache, open)
    ensures forall name :: name in cache ==> cache[name] < |g|
  {
    forall name | name in cache
      ensures cache[name] < |g|
    {
      assert CacheEntry(G, g, cache, open, name);
    }
  }

  /** Pushing a new matcher opens it and leaves everything else as it is. */
  lemma PushOpens(G: Grammar, sc: Scope, g: Graph, cache: map<string, nat>, base: nat, outer: set<nat>,
                  stack: seq<Entry>, frames: seq<Frame>, g': Graph, call: string)
    requires Building(G, sc, g, cache, base, outer, stack, frames) && base <= |g| < |g'|
    requires stack != [] && forall i :: 0 <= i < |g| && i != Last(stack).matcher ==> g'[i] == g[i]
    ensures var stack' := stack + [Entry(|g|, call)];
            var open, open' := outer + Ids(stack), outer + Ids(stack');
            Grows(g, cache, open, g', cache, open') && CacheValid(G, g', cache, open') && Distinct(stack') &&
            forall name, i :: name in cache && 1 <= i < |stack'| ==> cache[name] != stack'[i].matcher
  {
    var stack' := stack + [Entry(|g|, call)];
    var open, open' := outer + Ids(stack), outer + Ids(stack');
    assert Front(stack') == stack;
    IdsOfFront(stack');
    CachedBelow(G, g, cache, open);
    InIds(stack);
    CacheStaysValid(G, g, cache, open, g', open');
  }

  /** A bracket or call opens a new list. */
  lemma PushList(G: Grammar, sc: Scope, g: Graph, cache: map<string, nat>, base: nat, outer: set<nat>,
                 stack: seq<Entry>, frames: seq<Frame>, call: string)
    requires Building(G, sc, g, cache, base, outer, stack, frames) && base <= |g|
    ensures Building(G, sc, g + [List([])], cache, base, outer, stack + [Entry(|g|, call)], frames + [Frame(call, [], false)])
  {
    var g', stack', frames' := g + [List([])], stack + [Entry(|g|, call)], frames + [Frame(call, [], false)];
    var open, open' := outer + Ids(stack), outer + Ids(stack');
    ClosedGraphGrows(g, List([]));
    PushOpens(G, sc, g, cache, base, outer, stack, frames, g', call);
    StackStillHolds(G, sc, g, cache, open, g', cache, open', stack, frames);
    assert Front(stack') == stack && Front(frames') == frames;
  }

  /** '?' and '*' replace the last item of the list by a matcher around it. */
  lemma ReplaceLast(G: Grammar, sc: Scope, g: Graph, cache: map<string, nat>, base: nat, outer: set<nat>,
                    stack: seq<Entry>, frames: seq<Frame>, m: nat, p: Pattern)
    requires Building(G, sc, g, cache, base, outer, stack, frames) && !Last(frames).awaiting && Last(frames).items != []
    requires Represents(g, cache, outer + Ids(stack), m, Expand(G, p, sc.env, sc.level))
    ensures stack != [] && g[Last(stack).matcher].List? && g[Last(stack).matcher].children != []
    ensures var l, f := Last(stack).matcher, Last(frames);
            Building(G, sc, g[l := List(Front(g[l].children) + [m])], cache, base, outer, stack,
                     Front(frames) + [f.(items := Front(f.items) + [p])])
  {
    var f, l, open := Last(frames), Last(stack).matcher, outer + Ids(stack);
    var items := Front(f.items);
    var g', frames' := g[l := List(Front(g[l].children) + [m])], Front(frames) + [f.(items := items + [p])];
    InIds(stack);
    assert Grows(g, cache, open, g', cache, open);
    CacheStaysValid(G, g, cache, open, g', open);
    ReplacedListHolds(G, sc, g, cache, open, g', l, f.items, m, p);
    assert RefersInto(g[l], |g|) && Distinct(stack);
    StackStillHolds(G, sc, g, cache, open, g', cache, open, Front(stack), Front(frames));
    assert Front(frames') == Front(frames);
  }

  lemma ReplacedListHolds(G: Grammar, sc: Scope, g: Graph, cache: map<string, nat>, open: set<nat>, g': Graph, l: nat,
                          items: seq<Pattern>, m: nat, p: Pattern)
    requires items != [] && ListHolds(G, sc, g, cache, open, l, items) && Grows(g, cache, open, g', cache, open)
    requires g' == g[l := List(Front(g[l].children) + [m])]
    requires Represents(g, cache, open, m, Expand(G, p, sc.env, sc.level))
    ensures ListHolds(G, sc, g', cache, open, l, Front(items) + [p])
  {
    StillRepresents(g, cache, open, g', cache, open, m, Expand(G, p, sc.env, sc.level));
    StillRepresentsAll(g, cache, open, g', cache, open, Front(g[l].children), ExpandAll(G, Front(items), sc.env, sc.level));
    ExpandAllAppend(G, sc, Front(items), p);
  }

  /** The list ends in a new choice that has its last item as first alternative. */
  lemma OpenedChoiceHolds(G: Grammar, sc: Scope, g: Graph, cache: map<string, nat>, open: set<nat>, g': Graph, open': set<nat>,
                          l: nat, c: nat, items: seq<Pattern>)
    requires items != [] && ListHolds(G, sc, g, cache, open, l, items) && Grows(g, cache, open, g', cache, open')
    requires c < |g'| && l != c && g'[c] == Choice([Last(g[l].children)]) && g'[l] == List(Front(g[l].children) + [c])
    ensures AwaitingHolds(G, sc, g', cache, open', l, c, items)
  {
    var last := Last(g[l].children);
    assert Last(ExpandAll(G, items, sc.env, sc.level)) == Expand(G, Last(items), sc.env, sc.level);
    StillRepresentsAll(g, cache, open, g', cache, open', Front(g[l].children), ExpandAll(G, Front(items), sc.env, sc.level));
    StillRepresents(g, cache, open, g', cache, open', last, Expand(G, Last(items), sc.env, sc.level));
    assert Front(g'[l].children) == Front(g[l].children) && Last(g'[l].children) == c;
  }

  /** '/' replaces the last item by a choice that starts with it, and pushes the choice. */
  lemma OpenChoice(G: Grammar, sc: Scope, g: Graph, cache: map<string, nat>, base: nat, outer: set<nat>,
                   stack: seq<Entry>, frames: seq<Frame>)
    requires Building(G, sc, g, cache, base, outer, stack, frames) && base <= |g|
    requires !Last(frames).awaiting && Last(frames).items != []
    ensures stack != [] && g[Last(stack).matcher].List? && g[Last(stack).matcher].children != []
    ensures var l := Last(stack).matcher;
            var g' := (g + [Choice([Last(g[l].children)])])[l := List(Front(g[l].children) + [|g|])];
            Building(G, sc, g', cache, base, outer, stack + [Entry(|g|, "")],
                     Front(frames) + [Last(frames).(awaiting := true)])
  {
    var f, l, c := Last(frames), Last(stack).matcher, |g|;
    var last := Last(g[l].children);
    assert RefersInto(g[l], |g|);
    var g' := (g + [Choice([last])])[l := List(Front(g[l].children) + [c])];
    assert Closed(g') by {
      ClosedGraphGrows(g, Choice([last]));
    }
    var stack', frames' := stack + [Entry(c, "")], Front(frames) + [f.(awaiting := true)];
    var open, open' := outer + Ids(stack), outer + Ids(stack');
    PushOpens(G, sc, g, cache, base, outer, stack, frames, g', "");
    OpenedChoiceHolds(G, sc, g, cache, open, g', open', l, c, f.items);
    StackStillHolds(G, sc, g, cache, open, g', cache, open', Front(stack), Front(frames));
    assert Front(stack') == stack && Front(frames') == Front(frames);
  }

  /** A closed bracket is the list of its items. */
  lemma CloseList(G: Grammar, sc: Scope, g: Graph, cache: map<string, nat>, base: nat, outer: set<nat>,
                  stack: seq<Entry>, frames: seq<Frame>)
    requires Building(G, sc, g, cache, base, outer, stack, frames) && !Last(frames).awaiting && |frames| > 1
    ensures |stack| > 1 && Building(G, sc, g, cache, base, outer, Front(stack), Front(frames))
    ensures Represents(g, cache, outer + Ids(Front(stack)), Last(stack).matcher,
                       Expand(G, PGroup(Last(frames).items), sc.env, sc.level))
  {
    var f, l := Last(frames), Last(stack).matcher;
    var open, open' := outer + Ids(stack), outer + Ids(Front(stack));
    assert StackHolds(G, sc, g, cache, open, Front(stack), Front(frames)) && Front(frames) != [];
    PopCloses(G, sc, g, cache, base, outer, stack, frames, g);
    StillRepresentsAll(g, cache, open, g, cache, open', g[l].children, ExpandAll(G, f.items, sc.env, sc.level));
    StackStillHolds(G, sc, g, cache, open, g, cache, open', Front(stack), Front(frames));
  }

  /** A bracket closed while a choice waits adds the choice to its list once more. */
  lemma CloseLoneChoice(G: Grammar, sc: Scope, g: Graph, cache: map<string, nat>, base: nat, outer: set<nat>,
                        stack: seq<Entry>, frames: seq<Frame>)
    requires Building(G, sc, g, cache, base, outer, stack, frames) && Last(frames).awaiting
    ensures |stack| > 1 && g[Last(Front(stack)).matcher].List?
    ensures var f, c, l := Last(frames), Last(stack).matcher, Last(Front(stack)).matcher;
            var lone := PChoice([Last(f.items)]);
            Building(G, sc, g[l := List(g[l].children + [c])], cache, base, outer, Front(stack),
                     Front(frames) + [Frame(f.call, Front(f.items) + [lone, lone], false)])
  {
    var f, c, l := Last(frames), Last(stack).matcher, Last(Front(stack)).matcher;
    var g' := g[l := List(g[l].children + [c])];
    var lone := PChoice([Last(f.items)]);
    var frames' := Front(frames) + [Frame(f.call, Front(f.items) + [lone, lone], false)];
    var open, open' := outer + Ids(stack), outer + Ids(Front(stack));
    PopEdits(G, sc, g, cache, base, outer, stack, frames, g');
    LoneChoiceHolds(G, sc, g, cache, open, g', open', l, c, f.items);
    StackStillHolds(G, sc, g, cache, open, g', cache, open', Front(Front(stack)), Front(frames));
    assert RefersInto(g[l], |g|);
    assert Front(frames') == Front(frames);
  }

  lemma LoneChoiceHolds(G: Grammar, sc: Scope, g: Graph, cache: map<string, nat>, open: set<nat>, g': Graph, open': set<nat>,
                        l: nat, c: nat, items: seq<Pattern>)
    requires items != [] && AwaitingHolds(G, sc, g, cache, open, l, c, items) && l != c
    requires g' == g[l := List(g[l].children + [c])] && Grows(g, cache, open, g', cache, open') && c !in open'
    ensures ListHolds(G, sc, g', cache, open', l, Front(items) + [PChoice([Last(items)]), PChoice([Last(items)])])
  {
    var lone, before := PChoice([Last(items)]), Front(items);
    StillRepresentsAll(g, cache, open, g', cache, open', Front(g[l].children), ExpandAll(G, before, sc.env, sc.level));
    StillRepresents(g, cache, open, g', cache, open', g[c].children[0], Expand(G, Last(items), sc.env, sc.level));
    assert ExpandAll(G, [Last(items)], sc.env, sc.level) == [Expand(G, Last(items), sc.env, sc.level)];
    assert Represents(g', cache, open', c, Expand(G, lone, sc.env, sc.level));
    ExpandAllAppend(G, sc, before, lone);
    ExpandAllAppend(G, sc, before + [lone], lone);
    assert (before + [lone]) + [lone] == before + [lone, lone];
    assert g'[l].children == Front(g[l].children) + [c] + [c];
  }

  /** A new matcher around a finished one. */
  lemma Wrapped(G: Grammar, sc: Scope, g: Graph, cache: map<string, nat>, base: nat, outer: set<nat>,
                stack: seq<Entry>, frames: seq<Frame>, child: nat, node: Matcher, p: Pattern, q: Pattern)
    requires Building(G, sc, g, cache, base, outer, stack, frames) && base <= |g|
    requires (q == POptional(p) && node == Optional(child)) || (q == PRepeat(p) && node == Repeat(child))
    requires Represents(g, cache, outer + Ids(stack), child, Expand(G, p, sc.env, sc.level))
    ensures Building(G, sc, g + [node], cache, base, outer, stack, frames)
    ensures Represents(g + [node], cache, outer + Ids(stack), |g|, Expand(G, q, sc.env, sc.level))
  {
    Allocated(G, sc, g, cache, base, outer, stack, frames, node);
    assert Grows(g, cache, outer + Ids(stack), g + [node], cache, outer + Ids(stack));
    StillRepresents(g, cache, outer + Ids(stack), g + [node], cache, outer + Ids(stack), child, Expand(G, p, sc.env, sc.level));
  }

  // ----- what the methods of the matcher list do ---------------------------------------------------

  /** The matchers and the stack that is being edited. */
  datatype Machine = Machine(nodes: Graph, stack: seq<Entry>)

  ghost predicate Holds(G: Grammar, sc: Scope, m: Machine, cache: map<string, nat>, base: nat, outer: set<nat>, frames: seq<Frame>)
  {
    Building(G, sc, m.nodes, cache, base, outer, m.stack, frames)
  }

  predicate OnTop(m: Machine) {
    m.stack != [] && Last(m.stack).matcher < |m.nodes|
  }

  function AddItem(m: Machine, id: nat): Result<Machine>
    requires OnTop(m)
  {
    var root := Last(m.stack).matcher;
    match m.nodes[root]
    case List(cs) => Ok(m.(nodes := m.nodes[root := List(cs + [id])]))
    case Choice(cs) =>
      if |m.stack| <= 1 then Err("Choice matcher should never be the root in the matcher stack")
      else Ok(Machine(m.nodes[root := Choice(cs + [id])], Front(m.stack)))
    case _ => Err("Cannot add matcher to root matcher of this type")
  }

  function OpenList(m: Machine, call: string): Machine {
    Machine(m.nodes + [List([])], m.stack + [Entry(|m.nodes|, call)])
  }

  function MakeOptional(m: Machine, op: char): Result<Machine>
    requires OnTop(m)
  {
    var l := Last(m.stack).matcher;
    match m.nodes[l]
    case List(cs) =>
      if cs == [] then Err("Optional/Repeat rule found as first token")
      else
        var nodes := if op == '*' then m.nodes + [Repeat(Last(cs))] else m.nodes;
        var child := if op == '*' then |m.nodes| else Last(cs);
        Ok(m.(nodes := (nodes + [Optional(child)])[l := List(Front(cs) + [|nodes|])]))
    case _ => Err("Optional/Repeat expected a list matcher")
  }

  function BeginChoice(m: Machine): Result<Machine>
    requires OnTop(m)
  {
    var l := Last(m.stack).matcher;
    match m.nodes[l]
    case List(cs) =>
      if cs == [] then Err("OR rule found as first token")
      else Ok(Machine((m.nodes + [Choice([Last(cs)])])[l := List(Front(cs) + [|m.nodes|])],
                      m.stack + [Entry(|m.nodes|, "")]))
    case _ => Err("OR expected a list matcher")
  }

  /** Finished matchers, matchers of the callers and the bottom of the stack stay the same. */
  ghost predicate Advances(base: nat, outer: set<nat>, m: Machine, cache: map<string, nat>, n: Machine, cache': map<string, nat>) {
    m.stack != [] && n.stack != [] && n.stack[0] == m.stack[0] &&
    Grows(m.nodes, cache, outer + Ids(m.stack), n.nodes, cache', outer + Ids(n.stack)) &&
    CacheGrows(cache, cache', |m.nodes|) &&
    forall i :: 0 <= i < base && i < |m.nodes| ==> n.nodes[i] == m.nodes[i]
  }

  /** An edit of the matcher on top, new matchers and a shorter stack keep everything else. */
  lemma TopEdited(base: nat, outer: set<nat>, m: Machine, cache: map<string, nat>, n: Machine)
    requires m.stack != [] && n.stack != [] && (n.stack == m.stack || n.stack == Front(m.stack))
    requires base <= Last(m.stack).matcher && |m.nodes| <= |n.nodes|
    requires forall i :: 0 <= i < |m.nodes| && i != Last(m.stack).matcher ==> n.nodes[i] == m.nodes[i]
    ensures Advances(base, outer, m, cache, n, cache)
  {
    InIds(m.stack);
    IdsOfFront(m.stack);
  }

  /** Neither internal error of AddMatcher can occur. */
  lemma AddItemHolds(G: Grammar, sc: Scope, m: Machine, cache: map<string, nat>, base: nat, outer: set<nat>,
                     frames: seq<Frame>, id: nat, p: Pattern)
    requires Holds(G, sc, m, cache, base, outer, frames)
    requires Represents(m.nodes, cache, outer + Ids(m.stack), id, Expand(G, p, sc.env, sc.level))
    ensures OnTop(m) && AddItem(m, id).Ok?
    ensures Holds(G, sc, AddItem(m, id).value, cache, base, outer, PlaceTop(frames, p))
    ensures Advances(base, outer, m, cache, AddItem(m, id).value, cache)
  {
    if Last(frames).awaiting {
      AddToChoice(G, sc, m.nodes, cache, base, outer, m.stack, frames, id, p);
    } else {
      AddToList(G, sc, m.nodes, cache, base, outer, m.stack, frames, id, p);
    }
    TopEdited(base, outer, m, cache, AddItem(m, id).value);
  }

  lemma OpenListHolds(G: Grammar, sc: Scope, m: Machine, cache: map<string, nat>, base: nat, outer: set<nat>,
                      frames: seq<Frame>, call: string)
    requires Holds(G, sc, m, cache, base, outer, frames) && base <= |m.nodes|
    ensures Holds(G, sc, OpenList(m, call), cache, base, outer, frames + [Frame(call, [], false)])
    ensures Advances(base, outer, m, cache, OpenList(m, call), cache)
  {
    PushList(G, sc, m.nodes, cache, base, outer, m.stack, frames, call);
    var n := OpenList(m, call);
    assert Front(n.stack) == m.stack;
    IdsOfFront(n.stack);
    assert m.stack != [] by {
      TopMatcher(G, sc, m, cache, base, outer, frames);
    }
  }

  /** What is on top of the stack tells what the frame on top looks like. */
  lemma TopMatcher(G: Grammar, sc: Scope, m: Machine, cache: map<string, nat>, base: nat, outer: set<nat>, frames: seq<Frame>)
    requires Holds(G, sc, m, cache, base, outer, frames)
    ensures OnTop(m)
    ensures var top := m.nodes[Last(m.stack).matcher];
            if Last(frames).awaiting then top.Choice? && |m.stack| > 1 && Last(m.stack).functionName == ""
            else top.List? && Last(m.stack).functionName == Last(frames).call && (top.children == [] <==> Last(frames).items == [])
  {
  }

  lemma LastItem(G: Grammar, sc: Scope, m: Machine, cache: map<string, nat>, base: nat, outer: set<nat>, frames: seq<Frame>)
    requires Holds(G, sc, m, cache, base, outer, frames) && !Last(frames).awaiting && Last(frames).items != []
    ensures OnTop(m) && base <= Last(m.stack).matcher
    ensures m.nodes[Last(m.stack).matcher].List? && m.nodes[Last(m.stack).matcher].children != []
    ensures Represents(m.nodes, cache, outer + Ids(m.stack), Last(m.nodes[Last(m.stack).matcher].children),
                       Expand(G, Last(Last(frames).items), sc.env, sc.level))
  {
    var f := Last(frames);
    assert Last(ExpandAll(G, f.items, sc.env, sc.level)) == Expand(G, Last(f.items), sc.env, sc.level);
  }

  /** The last item of the list is replaced by an optional matcher around `child`. */
  lemma OptionalBuilds(G: Grammar, sc: Scope, g: Graph, cache: map<string, nat>, base: nat, outer: set<nat>, stack: seq<Entry>,
                       frames: seq<Frame>, child: nat, p: Pattern)
    requires Building(G, sc, g, cache, base, outer, stack, frames) && base <= |g|
    requires !Last(frames).awaiting && Last(frames).items != []
    requires Represents(g, cache, outer + Ids(stack), child, Expand(G, p, sc.env, sc.level))
    ensures stack != [] && Last(stack).matcher < |g| && g[Last(stack).matcher].List? && g[Last(stack).matcher].children != []
    ensures var l, f := Last(stack).matcher, Last(frames);
            Building(G, sc, (g + [Optional(child)])[l := List(Front(g[l].children) + [|g|])], cache, base, outer, stack,
                     Front(frames) + [f.(items := Front(f.items) + [POptional(p)])])
  {
    LastItem(G, sc, Machine(g, stack), cache, base, outer, frames);
    Wrapped(G, sc, g, cache, base, outer, stack, frames, child, Optional(child), p, POptional(p));
    ReplaceLast(G, sc, g + [Optional(child)], cache, base, outer, stack, frames, |g|, POptional(p));
  }

  lemma MakeOptionalHolds(G: Grammar, sc: Scope, m: Machine, cache: map<string, nat>, base: nat, outer: set<nat>,
                          frames: seq<Frame>, op: char) returns (n: Machine)
    requires Holds(G, sc, m, cache, base, outer, frames) && base <= |m.nodes| && (op == '?' || op == '*')
    requires !Last(frames).awaiting && Last(frames).items != []
    ensures OnTop(m) && MakeOptional(m, op) == Ok(n) && Advances(base, outer, m, cache, n, cache)
    ensures var f := Last(frames);
            var p := POptional(if op == '*' then PRepeat(Last(f.items)) else Last(f.items));
            Holds(G, sc, n, cache, base, outer, Front(frames) + [f.(items := Front(f.items) + [p])])
  {
    LastItem(G, sc, m, cache, base, outer, frames);
    n := MakeOptional(m, op).value;
    var p, child := Last(Last(frames).items), Last(m.nodes[Last(m.stack).matcher].children);
    if op == '*' {
      Wrapped(G, sc, m.nodes, cache, base, outer, m.stack, frames, child, Repeat(child), p, PRepeat(p));
      OptionalBuilds(G, sc, m.nodes + [Repeat(child)], cache, base, outer, m.stack, frames, |m.nodes|, PRepeat(p));
    } else {
      OptionalBuilds(G, sc, m.nodes, cache, base, outer, m.stack, frames, child, p);
    }
    TopEdited(base, outer, m, cache, n);
  }

  lemma BeginChoiceHolds(G: Grammar, sc: Scope, m: Machine, cache: map<string, nat>, base: nat, outer: set<nat>,
                         frames: seq<Frame>) returns (n: Machine)
    requires Holds(G, sc, m, cache, base, outer, frames) && base <= |m.nodes|
    requires !Last(frames).awaiting && Last(frames).items != []
    ensures OnTop(m) && BeginChoice(m) == Ok(n) && Advances(base, outer, m, cache, n, cache)
    ensures Holds(G, sc, n, cache, base, outer, Front(frames) + [Last(frames).(awaiting := true)])
  {
    OpenChoice(G, sc, m.nodes, cache, base, outer, m.stack, frames);
    n := BeginChoice(m).value;
    assert Front(n.stack) == m.stack;
    IdsOfFront(n.stack);
    InIds(m.stack);
  }
}
