/** What a successful, failing or endless match means: parse trees, termination and the
    independence of the result from suggestion bookkeeping. */
module PegSoundness {
  import opened Common
  import opened PegMatcher

  // ----- declarative grammar semantics -------------------------------------------------------

  /** A parse tree; its leaves are the tokens it derives. */
  datatype Tree = Token(text: string) | Node(children: seq<Tree>)

  function Yield(t: Tree): seq<string> {
    match t
    case Token(text) => [text]
    case Node(ts) => YieldAll(ts)
  }

  function YieldAll(ts: seq<Tree>): seq<string> {
    if ts == [] then [] else Yield(ts[0]) + YieldAll(ts[1..])
  }

  /** `t` is a derivation from matcher `m`: a list concatenates, a choice takes one child, an
      optional takes its child or nothing and a repeat takes its element at least once. */
  ghost predicate Fits(g: Graph, m: nat, t: Tree)
    requires Closed(g)
    decreases t
  {
    m < |g| && assert RefersInto(g[m], |g|);
    match g[m]
    case Leaf(terminal) => t.Token? && Accepts(terminal, t.text)
    case List(cs) =>
      t.Node? && |t.children| == |cs| && forall i :: 0 <= i < |cs| ==> Fits(g, cs[i], t.children[i])
    case Optional(x) =>
      t.Node? && |t.children| <= 1 && forall i :: 0 <= i < |t.children| ==> Fits(g, x, t.children[i])
    case Choice(cs) =>
      t.Node? && |t.children| == 1 && exists i :: 0 <= i < |cs| && Fits(g, cs[i], t.children[0])
    case Repeat(x) =>
      t.Node? && |t.children| >= 1 && forall i :: 0 <= i < |t.children| ==> Fits(g, x, t.children[i])
  }

  ghost predicate Derives(g: Graph, m: nat, s: seq<string>)
    requires Closed(g)
  {
    exists t :: Fits(g, m, t) && Yield(t) == s
  }

  /** One tree per matcher of `ms`. */
  ghost predicate FitsAll(g: Graph, ms: seq<nat>, ts: seq<Tree>)
    requires Closed(g)
  {
    |ts| == |ms| && forall i :: 0 <= i < |ms| ==> Fits(g, ms[i], ts[i])
  }

  lemma YieldCons(t: Tree, ts: seq<Tree>)
    ensures YieldAll([t] + ts) == Yield(t) + YieldAll(ts)
  {
    assert ([t] + ts)[1..] == ts;
  }

  lemma YieldOne(t: Tree)
    ensures YieldAll([t]) == Yield(t)
  {
    assert Yield(t) + [] == Yield(t);
  }

  lemma FitsCons(g: Graph, m: nat, ms: seq<nat>, t: Tree, ts: seq<Tree>)
    requires Closed(g) && Fits(g, m, t) && FitsAll(g, ms, ts)
    ensures FitsAll(g, [m] + ms, [t] + ts)
    ensures YieldAll([t] + ts) == Yield(t) + YieldAll(ts)
  {
    YieldCons(t, ts);
  }

  // ----- suggestions ---------------------------------------------------------------------------

  /** AddSuggestion answers OPTIONAL only for a matcher that derives the empty sequence. */
  lemma {:induction false} OptionalIsNullable(g: Graph, m: nat, c: Cursor) returns (t: Tree)
    requires Closed(g) && m < |g| && Suggest(g, m, c).0 == OPTIONAL
    ensures Fits(g, m, t) && Yield(t) == []
    decreases Unexpanded(g, c.added), 0, 0
  {
    assert RefersInto(g[m], |g|);
    assert m in Unexpanded(g, c.added) && m !in Unexpanded(g, c.added + {m});
    match g[m]
    case List(cs) =>
      var ts := OptionalListIsNullable(g, cs, c.(added := c.added + {m}));
      t := Node(ts);
    case Optional(x) => t := Node([]);
  }

  lemma {:induction false} OptionalListIsNullable(g: Graph, cs: seq<nat>, c: Cursor) returns (ts: seq<Tree>)
    requires Closed(g) && Within(g, cs) && SuggestList(g, cs, c).0 == OPTIONAL
    ensures FitsAll(g, cs, ts) && YieldAll(ts) == []
    decreases Unexpanded(g, c.added), 1, |cs|
  {
    ts := [];
    if cs != [] {
      var t := OptionalIsNullable(g, cs[0], c);
      var rest := OptionalListIsNullable(g, cs[1..], Suggest(g, cs[0], c).1);
      FitsCons(g, cs[0], cs[1..], t, rest);
      assert [cs[0]] + cs[1..] == cs;
      ts := [t] + rest;
    }
  }

  function EmitAll(g: Graph, ms: seq<nat>): seq<Suggestion>
    requires Within(g, ms)
  {
    if ms == [] then []
    else (match g[ms[0]] case Leaf(t) => Emits(t) case _ => []) + EmitAll(g, ms[1..])
  }

  lemma {:induction false} EmitAllAppend(g: Graph, ms: seq<nat>, ns: seq<nat>)
    requires Within(g, ms) && Within(g, ns)
    ensures EmitAll(g, ms + ns) == EmitAll(g, ms) + EmitAll(g, ns)
  {
    if ms == [] {
      assert ms + ns == ns;
    } else {
      assert (ms + ns)[1..] == ms[1..] + ns;
      EmitAllAppend(g, ms[1..], ns);
    }
  }

  /** From `before` to `after` the matchers in `order` were expanded, each exactly once and none
      of them earlier, and exactly their suggestions were appended. */
  ghost predicate Expanded(g: Graph, before: Cursor, after: Cursor, order: seq<nat>) {
    && Within(g, order)
    && (forall i, j :: 0 <= i < j < |order| ==> order[i] != order[j])
    && (forall i :: 0 <= i < |order| ==> order[i] !in before.added)
    && after.added == before.added + (set m | m in order)
    && after.emitted == before.emitted + EmitAll(g, order)
  }

  lemma ExpandedTrans(g: Graph, a: Cursor, b: Cursor, c: Cursor, o1: seq<nat>, o2: seq<nat>)
    requires Expanded(g, a, b, o1) && Expanded(g, b, c, o2)
    ensures Expanded(g, a, c, o1 + o2)
  {
    EmitAllAppend(g, o1, o2);
    forall i | 0 <= i < |o2|
      ensures o2[i] !in o1
    {
      assert o2[i] !in b.added;
    }
    assert (set m | m in o1 + o2) == (set m | m in o1) + (set m | m in o2);
  }

  lemma {:induction false} SuggestExpandsOnce(g: Graph, m: nat, c: Cursor) returns (order: seq<nat>)
    requires Closed(g) && m < |g|
    ensures Expanded(g, c, Suggest(g, m, c).1, order)
    decreases Unexpanded(g, c.added), 0, 0
  {
    order := [];
    if m !in c.added {
      assert RefersInto(g[m], |g|);
      assert m in Unexpanded(g, c.added) && m !in Unexpanded(g, c.added + {m});
      var inner := c.(added := c.added + {m});
      if g[m].Leaf? {
        assert EmitAll(g, [m]) == Emits(g[m].terminal) + [];
        return [m];
      }
      assert EmitAll(g, [m]) == [] + [];
      assert Expanded(g, c, inner, [m]);
      var rest: seq<nat>;
      match g[m] {
        case List(cs) => rest := SuggestListExpandsOnce(g, cs, inner);
        case Optional(x) => rest := SuggestExpandsOnce(g, x, inner);
        case Choice(cs) => rest := SuggestEachExpandsOnce(g, cs, inner);
        case Repeat(x) => rest := SuggestExpandsOnce(g, x, inner);
      }
      ExpandedTrans(g, c, inner, Suggest(g, m, c).1, [m], rest);
      order := [m] + rest;
    }
  }

  lemma {:induction false} SuggestListExpandsOnce(g: Graph, cs: seq<nat>, c: Cursor) returns (order: seq<nat>)
    requires Closed(g) && Within(g, cs)
    ensures Expanded(g, c, SuggestList(g, cs, c).1, order)
    decreases Unexpanded(g, c.added), 1, |cs|
  {
    order := [];
    if cs != [] {
      order := SuggestExpandsOnce(g, cs[0], c);
      var (t, a) := Suggest(g, cs[0], c);
      if t != MANDATORY {
        var rest := SuggestListExpandsOnce(g, cs[1..], a);
        ExpandedTrans(g, c, a, SuggestList(g, cs, c).1, order, rest);
        order := order + rest;
      }
    }
  }

  lemma {:induction false} SuggestEachExpandsOnce(g: Graph, cs: seq<nat>, c: Cursor) returns (order: seq<nat>)
    requires Closed(g) && Within(g, cs)
    ensures Expanded(g, c, SuggestEach(g, cs, c), order)
    decreases Unexpanded(g, c.added), 1, |cs|
  {
    order := [];
    if cs != [] {
      var first := SuggestExpandsOnce(g, cs[0], c);
      var a := Suggest(g, cs[0], c).1;
      var rest := SuggestEachExpandsOnce(g, cs[1..], a);
      ExpandedTrans(g, c, a, SuggestEach(g, cs, c), first, rest);
      order := first + rest;
    }
  }

  // ----- soundness -----------------------------------------------------------------------------

  predicate Spans(tokens: seq<string>, from: nat, to: nat, s: seq<string>) {
    from <= to <= |tokens| && s == tokens[from..to]
  }

  /** Whatever `Run` consumes is derived by the matcher, on every graph. */
  lemma {:induction false} RunIsSound(g: Graph, tokens: seq<string>, m: nat, c: Cursor, fuel: nat) returns (t: Tree)
    requires Closed(g) && Ready(g, tokens, m, c.index) && c.index <= |tokens|
    requires Run(g, tokens, m, c, fuel).Matched?
    ensures Fits(g, m, t)
    ensures Spans(tokens, c.index, Run(g, tokens, m, c, fuel).after.index, Yield(t))
    decreases fuel, 0
  {
    assert RefersInto(g[m], |g|);
    match g[m]
    case Leaf(_) => t := Token(tokens[c.index]);
    case List(cs) =>
      var ts := ListIsSound(g, tokens, cs, c.(added := {}), fuel - 1);
      t := Node(ts);
    case Optional(x) =>
      t := Node([]);
      if Run(g, tokens, x, c.(added := {}), fuel - 1).Matched? {
        var child := RunIsSound(g, tokens, x, c.(added := {}), fuel - 1);
        YieldOne(child);
        t := Node([child]);
      }
    case Choice(cs) =>
      var i, child := ChoiceIsSound(g, tokens, cs, c, fuel - 1);
      YieldOne(child);
      t := Node([child]);
      assert Fits(g, cs[i], t.children[0]);
    case Repeat(x) =>
      var first := RunIsSound(g, tokens, x, c.(added := {}), fuel - 1);
      var ts := RepeatIsSound(g, tokens, x, c.added, Run(g, tokens, x, c.(added := {}), fuel - 1).after, fuel - 1);
      YieldCons(first, ts);
      t := Node([first] + ts);
  }

  lemma {:induction false} ListIsSound(g: Graph, tokens: seq<string>, cs: seq<nat>, c: Cursor, fuel: nat)
    returns (ts: seq<Tree>)
    requires Closed(g) && Within(g, cs) && c.index <= |tokens|
    requires RunList(g, tokens, cs, c, fuel).Matched?
    ensures FitsAll(g, cs, ts)
    ensures Spans(tokens, c.index, RunList(g, tokens, cs, c, fuel).after.index, YieldAll(ts))
    decreases fuel, 1 + |cs|
  {
    ts := [];
    if cs != [] && c.index >= |tokens| {
      ts := OptionalListIsNullable(g, cs, c);
    } else if cs != [] {
      var t := RunIsSound(g, tokens, cs[0], c, fuel);
      var rest := ListIsSound(g, tokens, cs[1..], Run(g, tokens, cs[0], c, fuel).after, fuel);
      FitsCons(g, cs[0], cs[1..], t, rest);
      assert [cs[0]] + cs[1..] == cs;
      ts := [t] + rest;
    }
  }

  lemma {:induction false} ChoiceIsSound(g: Graph, tokens: seq<string>, cs: seq<nat>, c: Cursor, fuel: nat)
    returns (i: nat, t: Tree)
    requires Closed(g) && Within(g, cs) && c.index < |tokens|
    requires RunChoice(g, tokens, cs, c, fuel).Matched?
    ensures i < |cs| && Fits(g, cs[i], t)
    ensures Spans(tokens, c.index, RunChoice(g, tokens, cs, c, fuel).after.index, Yield(t))
    decreases fuel, 1 + |cs|
  {
    match Run(g, tokens, cs[0], c.(added := {}), fuel)
    case Matched(_) =>
      i := 0;
      t := RunIsSound(g, tokens, cs[0], c.(added := {}), fuel);
    case Failed(emitted) =>
      i, t := ChoiceIsSound(g, tokens, cs[1..], c.(emitted := emitted), fuel);
      i := i + 1;
  }

  lemma {:induction false} RepeatIsSound(g: Graph, tokens: seq<string>, x: nat, added: set<nat>, r: Cursor, fuel: nat)
    returns (ts: seq<Tree>)
    requires Closed(g) && x < |g| && r.index <= |tokens|
    requires RunRepeat(g, tokens, x, added, r, fuel).Matched?
    ensures forall i :: 0 <= i < |ts| ==> Fits(g, x, ts[i])
    ensures Spans(tokens, r.index, RunRepeat(g, tokens, x, added, r, fuel).after.index, YieldAll(ts))
    decreases fuel, 1
  {
    ts := [];
    if r.index < |tokens| && Run(g, tokens, x, r, fuel - 1).Matched? {
      var t := RunIsSound(g, tokens, x, r, fuel - 1);
      var rest := RepeatIsSound(g, tokens, x, added, Run(g, tokens, x, r, fuel - 1).after, fuel - 1);
      YieldCons(t, rest);
      ts := [t] + rest;
    }
  }

  // ----- the result is a function of the graph and the tokens ----------------------------------

  predicate SameVerdict(a: Outcome, b: Outcome) {
    match (a, b)
    case (Matched(x), Matched(y)) => x.index == y.index
    case (Failed(_), Failed(_)) => true
    case (Stuck, Stuck) => true
    case _ => false
  }

  /** A run that ends does not depend on the fuel. */
  lemma {:induction false} MoreFuel(g: Graph, tokens: seq<string>, m: nat, c: Cursor, fuel: nat, more: nat)
    requires Closed(g) && Ready(g, tokens, m, c.index) && fuel <= more
    requires Run(g, tokens, m, c, fuel) != Stuck
    ensures Run(g, tokens, m, c, more) == Run(g, tokens, m, c, fuel)
    decreases fuel, 0
  {
    assert RefersInto(g[m], |g|);
    match g[m]
    case Leaf(_) =>
    case List(cs) => MoreFuelList(g, tokens, cs, c.(added := {}), fuel - 1, more - 1);
    case Optional(x) => MoreFuel(g, tokens, x, c.(added := {}), fuel - 1, more - 1);
    case Choice(cs) => MoreFuelChoice(g, tokens, cs, c, fuel - 1, more - 1);
    case Repeat(x) =>
      MoreFuel(g, tokens, x, c.(added := {}), fuel - 1, more - 1);
      var first := Run(g, tokens, x, c.(added := {}), fuel - 1);
      if first.Matched? {
        MoreFuelRepeat(g, tokens, x, c.added, first.after, fuel - 1, more - 1);
      }
  }

  lemma {:induction false} MoreFuelList(g: Graph, tokens: seq<string>, cs: seq<nat>, c: Cursor, fuel: nat, more: nat)
    requires Closed(g) && Within(g, cs) && fuel <= more
    requires RunList(g, tokens, cs, c, fuel) != Stuck
    ensures RunList(g, tokens, cs, c, more) == RunList(g, tokens, cs, c, fuel)
    decreases fuel, 1 + |cs|
  {
    if cs != [] && c.index < |tokens| {
      MoreFuel(g, tokens, cs[0], c, fuel, more);
      var first := Run(g, tokens, cs[0], c, fuel);
      if first.Matched? {
        MoreFuelList(g, tokens, cs[1..], first.after, fuel, more);
      }
    }
  }

  lemma {:induction false} MoreFuelChoice(g: Graph, tokens: seq<string>, cs: seq<nat>, c: Cursor, fuel: nat, more: nat)
    requires Closed(g) && Within(g, cs) && c.index < |tokens| && fuel <= more
    requires RunChoice(g, tokens, cs, c, fuel) != Stuck
    ensures RunChoice(g, tokens, cs, c, more) == RunChoice(g, tokens, cs, c, fuel)
    decreases fuel, 1 + |cs|
  {
    if cs != [] {
      MoreFuel(g, tokens, cs[0], c.(added := {}), fuel, more);
      var first := Run(g, tokens, cs[0], c.(added := {}), fuel);
      if first.Failed? {
        MoreFuelChoice(g, tokens, cs[1..], c.(emitted := first.emitted), fuel, more);
      }
    }
  }

  lemma {:induction false} MoreFuelRepeat(g: Graph, tokens: seq<string>, x: nat, added: set<nat>, r: Cursor,
                                          fuel: nat, more: nat)
    requires Closed(g) && x < |g| && fuel <= more
    requires RunRepeat(g, tokens, x, added, r, fuel) != Stuck
    ensures RunRepeat(g, tokens, x, added, r, more) == RunRepeat(g, tokens, x, added, r, fuel)
    decreases fuel, 1
  {
    if r.index < |tokens| {
      MoreFuel(g, tokens, x, r, fuel - 1, more - 1);
      var next := Run(g, tokens, x, r, fuel - 1);
      if next.Matched? {
        MoreFuelRepeat(g, tokens, x, added, next.after, fuel - 1, more - 1);
      }
    }
  }

  // ----- termination -----------------------------------------------------------------------------

  /** `empty` over-approximates the matchers that can succeed without consuming a token. */
  ghost predicate Empties(g: Graph, empty: seq<bool>)
    requires Closed(g)
  {
    |empty| == |g| &&
    forall m :: 0 <= m < |g| ==>
      assert RefersInto(g[m], |g|);
      match g[m]
      case Leaf(_) => true
      case List(cs) => (forall i :: 0 <= i < |cs| ==> empty[cs[i]]) ==> empty[m]
      case Optional(_) => empty[m]
      case Choice(cs) => (exists i :: 0 <= i < |cs| && empty[cs[i]]) ==> empty[m]
      case Repeat(x) => empty[x] ==> empty[m]
  }

  /** `rank` shows that there is no left recursion: it drops along every reference that can be
      followed without consuming a token. The element of a repeat always consumes. */
  ghost predicate Ranked(g: Graph, empty: seq<bool>, rank: seq<nat>, top: nat)
    requires Closed(g)
  {
    Empties(g, empty) && |rank| == |g| &&
    forall m :: 0 <= m < |g| ==>
      assert RefersInto(g[m], |g|);
      rank[m] <= top &&
      match g[m]
      case Leaf(_) => true
      case List(cs) => forall i :: 0 <= i < |cs| && (forall j :: 0 <= j < i ==> empty[cs[j]]) ==> rank[cs[i]] < rank[m]
      case Optional(x) => rank[x] < rank[m]
      case Choice(cs) => forall i :: 0 <= i < |cs| ==> rank[cs[i]] < rank[m]
      case Repeat(x) => rank[x] < rank[m] && !empty[x]
  }

  lemma {:induction false} EmptyYield(ts: seq<Tree>, i: nat)
    requires YieldAll(ts) == [] && i < |ts|
    ensures Yield(ts[i]) == []
  {
    if i > 0 {
      EmptyYield(ts[1..], i - 1);
    }
  }

  /** Only matchers marked in `empty` derive the empty sequence. */
  lemma {:induction false} EmptyIsMarked(g: Graph, empty: seq<bool>, m: nat, t: Tree)
    requires Closed(g) && Empties(g, empty) && Fits(g, m, t) && Yield(t) == []
    ensures empty[m]
    decreases t
  {
    assert RefersInto(g[m], |g|);
    if t.Node? {
      forall i | 0 <= i < |t.children|
        ensures Yield(t.children[i]) == []
      {
        EmptyYield(t.children, i);
      }
      match g[m]
      case List(cs) =>
        forall i | 0 <= i < |cs|
          ensures empty[cs[i]]
        {
          EmptyIsMarked(g, empty, cs[i], t.children[i]);
        }
      case Optional(_) =>
      case Choice(cs) =>
        var i :| 0 <= i < |cs| && Fits(g, cs[i], t.children[0]);
        EmptyIsMarked(g, empty, cs[i], t.children[0]);
      case Repeat(x) => EmptyIsMarked(g, empty, x, t.children[0]);
    }
  }

  /** A run never moves backwards, and stays in place only for a matcher marked in `empty`. */
  lemma RunProgresses(g: Graph, tokens: seq<string>, empty: seq<bool>, m: nat, c: Cursor, fuel: nat)
    requires Closed(g) && Empties(g, empty) && Ready(g, tokens, m, c.index) && c.index <= |tokens|
    requires Run(g, tokens, m, c, fuel).Matched?
    ensures c.index <= Run(g, tokens, m, c, fuel).after.index <= |tokens|
    ensures Run(g, tokens, m, c, fuel).after.index == c.index ==> empty[m]
  {
    var t := RunIsSound(g, tokens, m, c, fuel);
    if Yield(t) == [] {
      EmptyIsMarked(g, empty, m, t);
    }
  }

  /** Enough fuel for a list, choice or repeat over `left` tokens, whatever is below its rank. */
  function Weight(left: nat, top: nat): nat {
    if left == 0 then 0 else Weight(left - 1, top) + top + 1
  }

  lemma {:induction false} WeightDrops(less: nat, left: nat, top: nat)
    requires less < left
    ensures Weight(less, top) + top + 1 <= Weight(left, top)
  {
    if less < left - 1 {
      WeightDrops(less, left - 1, top);
    }
  }

  /** With a rank, every match ends: by tokens left, then rank. */
  lemma {:induction false} MatchTerminates(g: Graph, tokens: seq<string>, empty: seq<bool>, rank: seq<nat>, top: nat,
                                           m: nat, c: Cursor, fuel: nat)
    requires Closed(g) && Ranked(g, empty, rank, top)
    requires Ready(g, tokens, m, c.index) && c.index <= |tokens|
    requires fuel >= Weight(|tokens| - c.index, top) + rank[m] + 1
    ensures Run(g, tokens, m, c, fuel) != Stuck
    decreases fuel, 0
  {
    assert RefersInto(g[m], |g|);
    match g[m]
    case Leaf(_) =>
    case List(cs) => ListTerminates(g, tokens, empty, rank, top, m, 0, c.index, c.(added := {}), fuel - 1);
    case Optional(x) => MatchTerminates(g, tokens, empty, rank, top, x, c.(added := {}), fuel - 1);
    case Choice(cs) => ChoiceTerminates(g, tokens, empty, rank, top, m, 0, c, fuel - 1);
    case Repeat(x) =>
      MatchTerminates(g, tokens, empty, rank, top, x, c.(added := {}), fuel - 1);
      var first := Run(g, tokens, x, c.(added := {}), fuel - 1);
      if first.Matched? {
        RunProgresses(g, tokens, empty, x, c.(added := {}), fuel - 1);
        WeightDrops(|tokens| - first.after.index, |tokens| - c.index, top);
        RepeatTerminates(g, tokens, empty, rank, top, m, c.added, first.after, fuel - 1);
      }
  }

  /** Children `k..` of list `m`, which was entered at token `from`. */
  lemma {:induction false} ListTerminates(g: Graph, tokens: seq<string>, empty: seq<bool>, rank: seq<nat>, top: nat,
                                          m: nat, k: nat, from: nat, c: Cursor, fuel: nat)
    requires Closed(g) && Ranked(g, empty, rank, top) && m < |g| && g[m].List? && k <= |g[m].children|
    requires Within(g, g[m].children)
    requires from <= c.index <= |tokens|
    requires c.index == from ==> forall j :: 0 <= j < k ==> empty[g[m].children[j]]
    requires fuel >= Weight(|tokens| - from, top) + rank[m]
    ensures RunList(g, tokens, g[m].children[k..], c, fuel) != Stuck
    decreases fuel, 1 + |g[m].children| - k
  {
    var cs := g[m].children;
    if k < |cs| && c.index < |tokens| {
      assert cs[k..][1..] == cs[k + 1..];
      if c.index > from {
        WeightDrops(|tokens| - c.index, |tokens| - from, top);
      }
      MatchTerminates(g, tokens, empty, rank, top, cs[k], c, fuel);
      var first := Run(g, tokens, cs[k], c, fuel);
      if first.Matched? {
        RunProgresses(g, tokens, empty, cs[k], c, fuel);
        ListTerminates(g, tokens, empty, rank, top, m, k + 1, from, first.after, fuel);
      }
    }
  }

  lemma {:induction false} ChoiceTerminates(g: Graph, tokens: seq<string>, empty: seq<bool>, rank: seq<nat>, top: nat,
                                            m: nat, k: nat, c: Cursor, fuel: nat)
    requires Closed(g) && Ranked(g, empty, rank, top) && m < |g| && g[m].Choice? && k <= |g[m].children|
    requires Within(g, g[m].children)
    requires c.index < |tokens|
    requires fuel >= Weight(|tokens| - c.index, top) + rank[m]
    ensures RunChoice(g, tokens, g[m].children[k..], c, fuel) != Stuck
    decreases fuel, 1 + |g[m].children| - k
  {
    var cs := g[m].children;
    if k < |cs| {
      assert cs[k..][1..] == cs[k + 1..];
      MatchTerminates(g, tokens, empty, rank, top, cs[k], c.(added := {}), fuel);
      var first := Run(g, tokens, cs[k], c.(added := {}), fuel);
      if first.Failed? {
        ChoiceTerminates(g, tokens, empty, rank, top, m, k + 1, c.(emitted := first.emitted), fuel);
      }
    }
  }

  lemma {:induction false} RepeatTerminates(g: Graph, tokens: seq<string>, empty: seq<bool>, rank: seq<nat>, top: nat,
                                            m: nat, added: set<nat>, r: Cursor, fuel: nat)
    requires Closed(g) && Ranked(g, empty, rank, top) && m < |g| && g[m].Repeat? && g[m].child < |g|
    requires r.index <= |tokens|
    requires fuel >= Weight(|tokens| - r.index, top) + top + 1
    ensures RunRepeat(g, tokens, g[m].child, added, r, fuel) != Stuck
    decreases fuel, 1
  {
    var x := g[m].child;
    if r.index < |tokens| {
      MatchTerminates(g, tokens, empty, rank, top, x, r, fuel - 1);
      var next := Run(g, tokens, x, r, fuel - 1);
      if next.Matched? {
        RunProgresses(g, tokens, empty, x, r, fuel - 1);
        WeightDrops(|tokens| - next.after.index, |tokens| - r.index, top);
        RepeatTerminates(g, tokens, empty, rank, top, m, added, next.after, fuel - 1);
      }
    }
  }

  // ----- bookkeeping -------------------------------------------------------------------------------

  /** Answers and expansions do not depend on the suggestions emitted so far. */
  lemma {:induction false} SuggestIgnoresEmitted(g: Graph, m: nat, c: Cursor, d: Cursor)
    requires Closed(g) && m < |g| && c.added == d.added
    ensures Suggest(g, m, c).0 == Suggest(g, m, d).0
    ensures Suggest(g, m, c).1.added == Suggest(g, m, d).1.added
    decreases Unexpanded(g, c.added), 0, 0
  {
    if m !in c.added {
      assert RefersInto(g[m], |g|);
      assert m in Unexpanded(g, c.added) && m !in Unexpanded(g, c.added + {m});
      var c', d' := c.(added := c.added + {m}), d.(added := d.added + {m});
      match g[m]
      case Leaf(_) =>
      case List(cs) => SuggestListIgnoresEmitted(g, cs, c', d');
      case Optional(x) => SuggestIgnoresEmitted(g, x, c', d');
      case Choice(cs) => SuggestEachIgnoresEmitted(g, cs, c', d');
      case Repeat(x) => SuggestIgnoresEmitted(g, x, c', d');
    }
  }

  lemma {:induction false} SuggestListIgnoresEmitted(g: Graph, cs: seq<nat>, c: Cursor, d: Cursor)
    requires Closed(g) && Within(g, cs) && c.added == d.added
    ensures SuggestList(g, cs, c).0 == SuggestList(g, cs, d).0
    ensures SuggestList(g, cs, c).1.added == SuggestList(g, cs, d).1.added
    decreases Unexpanded(g, c.added), 1, |cs|
  {
    if cs != [] {
      SuggestIgnoresEmitted(g, cs[0], c, d);
      SuggestListIgnoresEmitted(g, cs[1..], Suggest(g, cs[0], c).1, Suggest(g, cs[0], d).1);
    }
  }

  lemma {:induction false} SuggestEachIgnoresEmitted(g: Graph, cs: seq<nat>, c: Cursor, d: Cursor)
    requires Closed(g) && Within(g, cs) && c.added == d.added
    ensures SuggestEach(g, cs, c).added == SuggestEach(g, cs, d).added
    decreases Unexpanded(g, c.added), 1, |cs|
  {
    if cs != [] {
      SuggestIgnoresEmitted(g, cs[0], c, d);
      SuggestEachIgnoresEmitted(g, cs[1..], Suggest(g, cs[0], c).1, Suggest(g, cs[0], d).1);
    }
  }

  /** Outcomes of two runs that started with the same expansions, if `expansions` is set. */
  predicate Agree(a: Outcome, b: Outcome, expansions: bool) {
    SameVerdict(a, b) && (expansions && a.Matched? && b.Matched? ==> a.after.added == b.after.added)
  }

  /** Neither the suggestions nor the expansions of the calling state influence a match. */
  lemma {:induction false} MatchIgnoresBookkeeping(g: Graph, tokens: seq<string>, m: nat, c: Cursor, d: Cursor, fuel: nat)
    requires Closed(g) && Ready(g, tokens, m, c.index) && c.index == d.index
    ensures Agree(Run(g, tokens, m, c, fuel), Run(g, tokens, m, d, fuel), c.added == d.added)
    decreases fuel, 0
  {
    if fuel > 0 {
      assert RefersInto(g[m], |g|);
      var c', d' := c.(added := {}), d.(added := {});
      match g[m]
      case Leaf(_) =>
      case List(cs) => ListIgnoresEmitted(g, tokens, cs, c', d', fuel - 1);
      case Optional(x) => MatchIgnoresBookkeeping(g, tokens, x, c', d', fuel - 1);
      case Choice(cs) => ChoiceIgnoresBookkeeping(g, tokens, cs, c, d, fuel - 1);
      case Repeat(x) =>
        MatchIgnoresBookkeeping(g, tokens, x, c', d', fuel - 1);
        var r, s := Run(g, tokens, x, c', fuel - 1), Run(g, tokens, x, d', fuel - 1);
        if r.Matched? {
          RepeatIgnoresBookkeeping(g, tokens, x, c.added, d.added, r.after, s.after, fuel - 1);
        }
    }
  }

  lemma {:induction false} ListIgnoresEmitted(g: Graph, tokens: seq<string>, cs: seq<nat>, c: Cursor, d: Cursor, fuel: nat)
    requires Closed(g) && Within(g, cs) && c.index == d.index && c.added == d.added
    ensures Agree(RunList(g, tokens, cs, c, fuel), RunList(g, tokens, cs, d, fuel), true)
    decreases fuel, 1 + |cs|
  {
    if cs != [] && c.index >= |tokens| {
      SuggestListIgnoresEmitted(g, cs, c, d);
    } else if cs != [] {
      MatchIgnoresBookkeeping(g, tokens, cs[0], c, d, fuel);
      var r, s := Run(g, tokens, cs[0], c, fuel), Run(g, tokens, cs[0], d, fuel);
      if r.Matched? {
        ListIgnoresEmitted(g, tokens, cs[1..], r.after, s.after, fuel);
      }
    }
  }

  lemma {:induction false} ChoiceIgnoresBookkeeping(g: Graph, tokens: seq<string>, cs: seq<nat>, c: Cursor, d: Cursor,
                                                    fuel: nat)
    requires Closed(g) && Within(g, cs) && c.index == d.index < |tokens|
    ensures Agree(RunChoice(g, tokens, cs, c, fuel), RunChoice(g, tokens, cs, d, fuel), c.added == d.added)
    decreases fuel, 1 + |cs|
  {
    if cs != [] {
      MatchIgnoresBookkeeping(g, tokens, cs[0], c.(added := {}), d.(added := {}), fuel);
      var r, s := Run(g, tokens, cs[0], c.(added := {}), fuel), Run(g, tokens, cs[0], d.(added := {}), fuel);
      if r.Failed? {
        ChoiceIgnoresBookkeeping(g, tokens, cs[1..], c.(emitted := r.emitted), d.(emitted := s.emitted), fuel);
      }
    }
  }

  lemma {:induction false} RepeatIgnoresBookkeeping(g: Graph, tokens: seq<string>, x: nat, a: set<nat>, b: set<nat>,
                                                    r: Cursor, s: Cursor, fuel: nat)
    requires Closed(g) && x < |g| && r.index == s.index && r.added == s.added
    ensures Agree(RunRepeat(g, tokens, x, a, r, fuel), RunRepeat(g, tokens, x, b, s, fuel), a == b)
    decreases fuel, 1
  {
    if r.index >= |tokens| {
      if a == b {
        SuggestIgnoresEmitted(g, x, r.(added := a), s.(added := b));
      }
    } else if fuel > 0 {
      MatchIgnoresBookkeeping(g, tokens, x, r, s, fuel - 1);
      var p, q := Run(g, tokens, x, r, fuel - 1), Run(g, tokens, x, s, fuel - 1);
      if p.Matched? {
        RepeatIgnoresBookkeeping(g, tokens, x, a, b, p.after, q.after, fuel - 1);
      }
    }
  }

  /** But the verdict of a list does depend on what has been expanded: at the end of the tokens the same optional is
      skipped by a state that has expanded nothing, and not by one that has expanded it. */
  lemma ListDependsOnExpansions(emitted: seq<Suggestion>, fuel: nat)
    ensures var g := [Optional(1), Leaf(Keyword("b"))];
            Closed(g) && Within(g, [0]) &&
            RunList(g, ["a"], [0], Cursor(1, {}, emitted), fuel).Matched? &&
            RunList(g, ["a"], [0], Cursor(1, {0}, emitted), fuel).Failed?
  {
    var g := [Optional(1), Leaf(Keyword("b"))];
    assert RefersInto(g[0], 2) && RefersInto(g[1], 2);
    SuggestStep(g, [0], Cursor(1, {}, emitted));
    SuggestStep(g, [0], Cursor(1, {0}, emitted));
    assert Unfolded(g, [0]) == [];
  }

  // ----- the end of the tokens -----------------------------------------------------------------------

  /** The matchers met when `cs` are walked through, with the children of lists in place of the lists. */
  ghost predicate IsWalk(g: Graph, cs: seq<nat>, walk: seq<nat>)
    requires Closed(g) && Within(g, cs)
    decreases |walk|
  {
    if cs == [] then walk == []
    else
      walk != [] && walk[0] == cs[0] && assert RefersInto(g[cs[0]], |g|);
      IsWalk(g, Unfolded(g, cs), walk[1..])
  }

  function Unfolded(g: Graph, cs: seq<nat>): (r: seq<nat>)
    requires Closed(g) && Within(g, cs) && cs != []
    ensures Within(g, r)
  {
    assert RefersInto(g[cs[0]], |g|);
    (if g[cs[0]].List? then g[cs[0]].children else []) + cs[1..]
  }

  /** Passing by an optional or a list expands it, and the child of an optional with it. */
  ghost function Passed(g: Graph, m: nat, c: Cursor): Cursor
    requires Closed(g) && m < |g|
  {
    assert RefersInto(g[m], |g|);
    var expanded := c.(added := c.added + {m});
    if g[m].Optional? then Suggest(g, g[m].child, expanded).1 else expanded
  }

  /** Every matcher met is an optional or a list, and has not been expanded before. */
  ghost predicate CanSkip(g: Graph, walk: seq<nat>, c: Cursor)
    requires Closed(g) && Within(g, walk)
  {
    walk == [] ||
    ((g[walk[0]].Optional? || g[walk[0]].List?) && walk[0] !in c.added && CanSkip(g, walk[1..], Passed(g, walk[0], c)))
  }

  lemma {:induction false} SuggestListAppend(g: Graph, a: seq<nat>, b: seq<nat>, c: Cursor)
    requires Closed(g) && Within(g, a) && Within(g, b)
    ensures SuggestList(g, a + b, c)
            == if SuggestList(g, a, c).0 == MANDATORY then SuggestList(g, a, c) else SuggestList(g, b, SuggestList(g, a, c).1)
    decreases |a|
  {
    if a == [] {
      assert a + b == b;
    } else {
      assert (a + b)[1..] == a[1..] + b;
      SuggestListAppend(g, a[1..], b, Suggest(g, a[0], c).1);
    }
  }

  lemma SuggestOne(g: Graph, m: nat, c: Cursor)
    requires Closed(g) && m < |g|
    ensures m in c.added || !(g[m].Optional? || g[m].List?) ==> Suggest(g, m, c).0 == MANDATORY
    ensures m !in c.added && g[m].Optional? ==> Suggest(g, m, c) == (OPTIONAL, Passed(g, m, c))
    ensures m !in c.added && g[m].List? ==>
              Within(g, g[m].children) && Suggest(g, m, c) == SuggestList(g, g[m].children, Passed(g, m, c))
  {
    assert RefersInto(g[m], |g|);
  }

  /** The first matcher is passed by, and the walk goes on. */
  lemma SuggestStep(g: Graph, cs: seq<nat>, c: Cursor)
    requires Closed(g) && Within(g, cs) && cs != []
    ensures SuggestList(g, cs, c).0 == OPTIONAL <==>
            (g[cs[0]].Optional? || g[cs[0]].List?) && cs[0] !in c.added &&
            SuggestList(g, Unfolded(g, cs), Passed(g, cs[0], c)).0 == OPTIONAL
  {
    var m, rest, next := cs[0], cs[1..], Passed(g, cs[0], c);
    SuggestOne(g, m, c);
    if m !in c.added && g[m].List? {
      SuggestListAppend(g, g[m].children, rest, next);
    } else if m !in c.added && g[m].Optional? {
      assert Unfolded(g, cs) == rest;
    }
  }

  lemma {:induction false} SkippedWalk(g: Graph, cs: seq<nat>, c: Cursor) returns (walk: seq<nat>)
    requires Closed(g) && Within(g, cs) && SuggestList(g, cs, c).0 == OPTIONAL
    ensures Within(g, walk) && IsWalk(g, cs, walk) && CanSkip(g, walk, c)
    decreases Unexpanded(g, c.added)
  {
    walk := [];
    if cs != [] {
      SuggestStep(g, cs, c);
      var next := Passed(g, cs[0], c);
      assert cs[0] in Unexpanded(g, c.added) && cs[0] !in Unexpanded(g, next.added);
      assert forall m :: m in Unexpanded(g, next.added) ==> m in Unexpanded(g, c.added);
      var rest := SkippedWalk(g, Unfolded(g, cs), next);
      walk := [cs[0]] + rest;
    }
  }

  lemma {:induction false} WalkIsSkipped(g: Graph, cs: seq<nat>, c: Cursor, walk: seq<nat>)
    requires Closed(g) && Within(g, cs) && Within(g, walk) && IsWalk(g, cs, walk) && CanSkip(g, walk, c)
    ensures SuggestList(g, cs, c).0 == OPTIONAL
    decreases |walk|
  {
    if cs != [] {
      SuggestStep(g, cs, c);
      WalkIsSkipped(g, Unfolded(g, cs), Passed(g, cs[0], c), walk[1..]);
    }
  }

  /** At the end of the tokens the remaining children are skipped exactly if walking through them meets only optionals
      and lists, and none that was met or expanded before. */
  lemma SkippedIff(g: Graph, cs: seq<nat>, c: Cursor)
    requires Closed(g) && Within(g, cs)
    ensures SuggestList(g, cs, c).0 == OPTIONAL <==> exists walk :: Within(g, walk) && IsWalk(g, cs, walk) && CanSkip(g, walk, c)
  {
    if SuggestList(g, cs, c).0 == OPTIONAL {
      var walk := SkippedWalk(g, cs, c);
    }
    if walk :| Within(g, walk) && IsWalk(g, cs, walk) && CanSkip(g, walk, c) {
      WalkIsSkipped(g, cs, c, walk);
    }
  }

  /** So no matcher is met twice. */
  lemma {:induction false} SkippedOnce(g: Graph, walk: seq<nat>, c: Cursor, i: nat)
    requires Closed(g) && Within(g, walk) && CanSkip(g, walk, c) && i < |walk|
    ensures walk[i] !in c.added && (g[walk[i]].Optional? || g[walk[i]].List?) && forall j :: 0 <= j < i ==> walk[j] != walk[i]
    decreases |walk|
  {
    if i > 0 {
      SkippedOnce(g, walk[1..], Passed(g, walk[0], c), i - 1);
      assert forall j :: 0 < j < i ==> walk[j] == walk[1..][j - 1];
    }
  }

  ghost predicate ClosedUnder(g: Graph, inner: set<nat>) {
    forall m :: m in inner && m < |g| ==>
      match g[m]
      case Leaf(_) => true
      case List(cs) => forall k :: 0 <= k < |cs| ==> cs[k] in inner
      case Choice(cs) => forall k :: 0 <= k < |cs| ==> cs[k] in inner
      case Optional(x) => x in inner
      case Repeat(x) => x in inner
  }

  /** Expanding stays among the matchers that are referred to. */
  lemma {:induction false} ExpandsInside(g: Graph, m: nat, c: Cursor, inner: set<nat>)
    requires Closed(g) && m < |g| && ClosedUnder(g, inner) && m in inner
    ensures Suggest(g, m, c).1.added <= c.added + inner
    decreases Unexpanded(g, c.added), 0, 0
  {
    if m !in c.added {
      assert RefersInto(g[m], |g|);
      assert m in Unexpanded(g, c.added) && m !in Unexpanded(g, c.added + {m});
      var d := c.(added := c.added + {m});
      match g[m]
      case Leaf(_) =>
      case List(cs) => ListExpandsInside(g, cs, d, inner);
      case Optional(x) => ExpandsInside(g, x, d, inner);
      case Choice(cs) => EachExpandsInside(g, cs, d, inner);
      case Repeat(x) => ExpandsInside(g, x, d, inner);
    }
  }

  lemma {:induction false} ListExpandsInside(g: Graph, cs: seq<nat>, c: Cursor, inner: set<nat>)
    requires Closed(g) && Within(g, cs) && ClosedUnder(g, inner) && forall k :: 0 <= k < |cs| ==> cs[k] in inner
    ensures SuggestList(g, cs, c).1.added <= c.added + inner
    decreases Unexpanded(g, c.added), 1, |cs|
  {
    if cs != [] {
      ExpandsInside(g, cs[0], c, inner);
      ListExpandsInside(g, cs[1..], Suggest(g, cs[0], c).1, inner);
    }
  }

  lemma {:induction false} EachExpandsInside(g: Graph, cs: seq<nat>, c: Cursor, inner: set<nat>)
    requires Closed(g) && Within(g, cs) && ClosedUnder(g, inner) && forall k :: 0 <= k < |cs| ==> cs[k] in inner
    ensures SuggestEach(g, cs, c).added <= c.added + inner
    decreases Unexpanded(g, c.added), 1, |cs|
  {
    if cs != [] {
      ExpandsInside(g, cs[0], c, inner);
      EachExpandsInside(g, cs[1..], Suggest(g, cs[0], c).1, inner);
    }
  }

  /** Where the children of the optionals do not lead back to the walk, it is enough that no matcher is met twice. */
  lemma {:induction false} DistinctWalkIsSkipped(g: Graph, walk: seq<nat>, c: Cursor, inner: set<nat>)
    requires Closed(g) && Within(g, walk) && ClosedUnder(g, inner)
    requires forall i :: 0 <= i < |walk| ==>
               walk[i] !in inner && walk[i] !in c.added && (g[walk[i]].List? || (g[walk[i]].Optional? && g[walk[i]].child in inner))
    requires forall i, j :: 0 <= i < j < |walk| ==> walk[i] != walk[j]
    ensures CanSkip(g, walk, c)
    decreases |walk|
  {
    if walk != [] {
      assert RefersInto(g[walk[0]], |g|);
      if g[walk[0]].Optional? {
        ExpandsInside(g, g[walk[0]].child, c.(added := c.added + {walk[0]}), inner);
      }
      DistinctWalkIsSkipped(g, walk[1..], Passed(g, walk[0], c), inner);
    }
  }

  lemma AcceptsItself(text: string)
    ensures Accepts(Keyword(text), text)
  {
  }

  lemma ThreeYield(a: Tree, b: Tree, c: Tree)
    ensures YieldAll([a, b, c]) == Yield(a) + (Yield(b) + Yield(c))
  {
    assert [a, b, c][1..] == [b, c] && [b, c][1..] == [c];
    YieldOne(c);
    assert YieldAll([b, c]) == Yield(b) + YieldAll([c]);
  }

  /** A statement that is derived and rejected: `a` of the rule 'a' O O, where O is 'b'?. */
  lemma RepeatedOptionalIsRejected(fuel: nat)
    requires fuel >= 3
    ensures var g := [List([1, 2, 2]), Leaf(Keyword("a")), Optional(3), Leaf(Keyword("b"))];
            Closed(g) && Ready(g, ["a"], 0, 0) && Derives(g, 0, ["a"]) && Run(g, ["a"], 0, START, fuel).Failed?
  {
    var g := [List([1, 2, 2]), Leaf(Keyword("a")), Optional(3), Leaf(Keyword("b"))];
    assert Closed(g) by {
      assert RefersInto(g[0], 4) && RefersInto(g[1], 4) && RefersInto(g[2], 4) && RefersInto(g[3], 4);
    }
    AcceptsItself("a");
    OptionalTwiceDerives(g);
    OptionalTwiceFails(g, fuel - 1);
  }

  lemma OptionalTwiceDerives(g: Graph)
    requires |g| == 4 && Closed(g) && g[0] == List([1, 2, 2]) && g[1] == Leaf(Keyword("a")) && g[2] == Optional(3)
    requires Accepts(Keyword("a"), "a")
    ensures Derives(g, 0, ["a"])
  {
    var a, none := Token("a"), Node([]);
    ThreeYield(a, none, none);
    assert Fits(g, 1, a) && Fits(g, 2, none);
    assert Fits(g, 0, Node([a, none, none])) && Yield(Node([a, none, none])) == ["a"];
  }

  lemma OptionalTwiceFails(g: Graph, fuel: nat)
    requires |g| == 4 && Closed(g) && g[0] == List([1, 2, 2]) && g[1] == Leaf(Keyword("a")) && g[2] == Optional(3)
    requires Accepts(Keyword("a"), "a") && fuel > 0
    ensures Run(g, ["a"], 0, START, fuel + 1).Failed?
  {
    var c := Cursor(1, {}, []);
    assert Run(g, ["a"], 1, START, fuel) == Matched(c);
    assert [1, 2, 2][1..] == [2, 2] && [2, 2][1..] == [2];
    SuggestStep(g, [2, 2], c);
    assert Unfolded(g, [2, 2]) == [2];
    SuggestStep(g, [2], Passed(g, 2, c));
    assert RunList(g, ["a"], [2, 2], c, fuel).Failed?;
    assert RunList(g, ["a"], [1, 2, 2], START, fuel) == RunList(g, ["a"], [2, 2], c, fuel);
  }

  // ----- scripts -------------------------------------------------------------------------------------

  /** With one child the root never leaves the token index at the end. */
  lemma OneChildStaysInside(g: Graph, root: nat, statement: seq<string>, fuel: nat)
    requires Closed(g) && root < |g| && statement != [] && (g[root].List? ==> |g[root].children| == 1)
    ensures !LeftAtEnd(g, statement, root, START, fuel)
  {
    if g[root].List? && fuel > 0 {
      assert RefersInto(g[root], |g|);
      var cs := g[root].children;
      var first := Run(g, statement, cs[0], START, fuel - 1);
      assert first.Matched? ==> !Exhausted(g, statement, cs[1..], first.after, fuel - 1);
      assert START.(added := {}) == START;
    }
  }

  /** With more it may: `a` fails on the rule 'a' 'b' at the end of its tokens. */
  lemma TwoChildrenFailAtEnd(fuel: nat)
    requires fuel >= 3
    ensures var g := [List([1, 2]), Leaf(Keyword("a")), Leaf(Keyword("b"))];
            Closed(g) && Run(g, ["a"], 0, START, fuel).Failed? && LeftAtEnd(g, ["a"], 0, START, fuel)
  {
    var g := [List([1, 2]), Leaf(Keyword("a")), Leaf(Keyword("b"))];
    var c := Cursor(1, {}, []);
    assert RefersInto(g[0], 3) && RefersInto(g[1], 3) && RefersInto(g[2], 3);
    AcceptsItself("a");
    assert Run(g, ["a"], 1, START, fuel - 1) == Matched(c);
    assert [1, 2][1..] == [2];
    SuggestStep(g, [2], c);
    assert RunList(g, ["a"], [2], c, fuel - 1).Failed? && Exhausted(g, ["a"], [2], c, fuel - 1);
  }

  /** A statement accepted by the check is derived by the root rule, all of it. */
  lemma AcceptedIsDerived(g: Graph, root: nat, statement: seq<string>, fuel: nat)
    requires Closed(g) && Ready(g, statement, root, 0) && ParsesFully(g, root, statement, fuel)
    ensures Derives(g, root, statement)
  {
    var t := RunIsSound(g, statement, root, START, fuel);
    assert statement[0..|statement|] == statement;
  }
}
