/** What the verdict of a match rests on. A claim says how a matcher fares from an index, and `Follows` says when it
    follows from claims about the children. A run ends with a verdict exactly if there are such claims down to the
    tokens. */
module PegMeaning {
  import opened Common
  import opened PegMatcher
  import opened PegSoundness

  /** The matcher stops at this index, or fails. */
  datatype Verdict = To(index: nat) | Fails

  /** A claim and the claims it rests on: the children that were tried, in order. */
  datatype Claim = Claim(m: nat, from: nat, verdict: Verdict, tried: seq<Claim>)

  predicate StartsAfter(from: nat, tried: seq<Claim>, i: nat)
    requires i < |tried|
  {
    if i == 0 then tried[0].from == from else tried[i - 1].verdict == To(tried[i].from)
  }

  /** Each claim starts where the one before it stopped, and there is a token left. */
  predicate IsChain(tokens: seq<string>, from: nat, tried: seq<Claim>) {
    forall i :: 0 <= i < |tried| ==> tried[i].from < |tokens| && StartsAfter(from, tried, i)
  }

  /** How far a chain has come. */
  function Reached(from: nat, tried: seq<Claim>): Verdict {
    if tried == [] then To(from) else tried[|tried| - 1].verdict
  }

  predicate FirstFail(tried: seq<Claim>, n: nat)
    requires n <= |tried|
  {
    forall i :: 0 <= i < n ==> tried[i].verdict == Fails
  }

  /** A repetition that takes the last token expands its element. */
  ghost function ExpandedBy(g: Graph, m: nat): set<nat>
    requires Closed(g) && m < |g|
  {
    assert RefersInto(g[m], |g|);
    if g[m].Repeat? then Suggest(g, g[m].child, Cursor(0, {}, [])).1.added else {}
  }

  /** The children that remain when the tokens have come to an end are skipped. */
  ghost predicate Skips(g: Graph, rest: seq<nat>, expanded: set<nat>)
    requires Closed(g) && Within(g, rest)
  {
    exists walk :: Within(g, walk) && IsWalk(g, rest, walk) && CanSkip(g, walk, Cursor(0, expanded, []))
  }

  /** The children of a list are tried in order until one fails or no token is left. */
  ghost predicate ListFollows(g: Graph, tokens: seq<string>, cs: seq<nat>, from: nat, expanded: set<nat>, tried: seq<Claim>,
                              verdict: Verdict)
    requires Closed(g) && Within(g, cs)
  {
    var n := |tried|;
    && n <= |cs| && (forall i :: 0 <= i < n ==> tried[i].m == cs[i]) && IsChain(tokens, from, tried)
    && var reached := Reached(from, tried);
       if reached.Fails? || n == |cs| then verdict == reached
       else
         reached.index >= |tokens| &&
         verdict == if Skips(g, cs[n..], if n == 0 then expanded else ExpandedBy(g, cs[n - 1])) then reached else Fails
  }

  /** Rounds are tried until one fails or no token is left; if it is not the first, the one that fails is left out. */
  predicate RepeatFollows(tokens: seq<string>, x: nat, from: nat, tried: seq<Claim>, verdict: Verdict) {
    var n := |tried|;
    && n > 0 && (forall i :: 0 <= i < n ==> tried[i].m == x) && IsChain(tokens, from, tried)
    && var reached := Reached(from, tried);
       if reached.Fails? then verdict == if n == 1 then Fails else To(tried[n - 1].from)
       else reached.index >= |tokens| && verdict == reached
  }

  /** Alternatives are tried from the same index until one does not fail. */
  predicate ChoiceFollows(cs: seq<nat>, from: nat, tried: seq<Claim>, verdict: Verdict) {
    var n := |tried|;
    && n <= |cs| && (forall i :: 0 <= i < n ==> tried[i].m == cs[i] && tried[i].from == from)
    && if verdict.Fails? then n == |cs| && FirstFail(tried, n)
       else n > 0 && FirstFail(tried, n - 1) && tried[n - 1].verdict == verdict
  }

  ghost predicate Follows(g: Graph, tokens: seq<string>, p: Claim)
    requires Closed(g) && Ready(g, tokens, p.m, p.from)
  {
    assert RefersInto(g[p.m], |g|);
    match g[p.m]
    case Leaf(t) => p.tried == [] && p.verdict == if Accepts(t, tokens[p.from]) then To(p.from + 1) else Fails
    case List(cs) => ListFollows(g, tokens, cs, p.from, {}, p.tried, p.verdict)
    case Optional(x) =>
      |p.tried| == 1 && p.tried[0].m == x && p.tried[0].from == p.from &&
      p.verdict == if p.tried[0].verdict.Fails? then To(p.from) else p.tried[0].verdict
    case Choice(cs) => ChoiceFollows(cs, p.from, p.tried, p.verdict)
    case Repeat(x) => RepeatFollows(tokens, x, p.from, p.tried, p.verdict)
  }

  ghost predicate IsShown(g: Graph, tokens: seq<string>, p: Claim)
    requires Closed(g)
    decreases p
  {
    Ready(g, tokens, p.m, p.from) && Follows(g, tokens, p) && forall i :: 0 <= i < |p.tried| ==> IsShown(g, tokens, p.tried[i])
  }

  ghost predicate Shows(g: Graph, tokens: seq<string>, m: nat, from: nat, verdict: Verdict)
    requires Closed(g)
  {
    exists tried :: IsShown(g, tokens, Claim(m, from, verdict, tried))
  }

  /** The verdict of a run that ends. */
  function Ended(o: Outcome): Option<Verdict> {
    match o
    case Matched(a) => Some(To(a.index))
    case Failed(_) => Some(Fails)
    case Stuck => None
  }

  ghost predicate AreShown(g: Graph, tokens: seq<string>, tried: seq<Claim>)
    requires Closed(g)
  {
    forall i :: 0 <= i < |tried| ==> IsShown(g, tokens, tried[i])
  }

  // ----- chains ---------------------------------------------------------------------------------------------

  lemma ChainCons(tokens: seq<string>, from: nat, p: Claim, at: nat, rest: seq<Claim>)
    requires p.from == from < |tokens| && p.verdict == To(at) && IsChain(tokens, at, rest)
    ensures IsChain(tokens, from, [p] + rest) && Reached(from, [p] + rest) == Reached(at, rest)
  {
    var tried := [p] + rest;
    forall i | 0 <= i < |tried|
      ensures tried[i].from < |tokens| && StartsAfter(from, tried, i)
    {
      assert i > 0 ==> tried[i] == rest[i - 1] && StartsAfter(at, rest, i - 1);
    }
  }

  lemma ChainTail(tokens: seq<string>, from: nat, tried: seq<Claim>)
    requires IsChain(tokens, from, tried) && tried != []
    ensures tried[0].from == from < |tokens|
    ensures tried[0].verdict.Fails? ==> |tried| == 1
    ensures tried[0].verdict.To? ==>
              IsChain(tokens, tried[0].verdict.index, tried[1..]) && Reached(from, tried) == Reached(tried[0].verdict.index, tried[1..])
  {
    assert StartsAfter(from, tried, 0);
    if |tried| > 1 {
      assert StartsAfter(from, tried, 1);
    }
    if tried[0].verdict.To? {
      forall i | 0 <= i < |tried[1..]|
        ensures tried[1..][i].from < |tokens| && StartsAfter(tried[0].verdict.index, tried[1..], i)
      {
        assert StartsAfter(from, tried, i + 1);
      }
    }
  }

  lemma ListCons(g: Graph, tokens: seq<string>, cs: seq<nat>, from: nat, expanded: set<nat>, p: Claim, at: nat, later: set<nat>,
                 rest: seq<Claim>, verdict: Verdict)
    requires Closed(g) && Within(g, cs) && cs != [] && p.m == cs[0] && p.from == from < |tokens| && p.verdict == To(at)
    requires at >= |tokens| ==> later == ExpandedBy(g, cs[0])
    requires ListFollows(g, tokens, cs[1..], at, later, rest, verdict)
    ensures ListFollows(g, tokens, cs, from, expanded, [p] + rest, verdict)
  {
    var tried := [p] + rest;
    ChainCons(tokens, from, p, at, rest);
    assert cs[|tried|..] == cs[1..][|rest|..];
    assert forall i :: 0 < i < |tried| ==> tried[i] == rest[i - 1];
  }

  lemma ListTail(g: Graph, tokens: seq<string>, cs: seq<nat>, from: nat, expanded: set<nat>, tried: seq<Claim>, verdict: Verdict)
    requires Closed(g) && Within(g, cs) && ListFollows(g, tokens, cs, from, expanded, tried, verdict) && tried != []
    ensures cs != [] && tried[0].m == cs[0] && tried[0].from == from < |tokens|
    ensures tried[0].verdict.Fails? ==> verdict == Fails
    ensures tried[0].verdict.To? ==>
              ListFollows(g, tokens, cs[1..], tried[0].verdict.index, ExpandedBy(g, cs[0]), tried[1..], verdict)
  {
    ChainTail(tokens, from, tried);
    assert cs[|tried|..] == cs[1..][|tried[1..]|..];
  }

  // ----- what a match leaves expanded ---------------------------------------------------------------------

  /** A match hands on the expansions of the state it started in, and a repetition that comes to the end adds its own. */
  lemma ExpandedAfter(g: Graph, tokens: seq<string>, m: nat, c: Cursor, fuel: nat)
    requires Closed(g) && Ready(g, tokens, m, c.index) && c.added == {} && Run(g, tokens, m, c, fuel).Matched?
    ensures var a := Run(g, tokens, m, c, fuel).after;
            a.added == if a.index >= |tokens| then ExpandedBy(g, m) else {}
  {
    assert RefersInto(g[m], |g|);
    match g[m]
    case Choice(cs) => ExpandedByChoice(g, tokens, cs, c, fuel - 1);
    case Repeat(x) =>
      ExpandedByRepeat(g, tokens, x, Run(g, tokens, x, c.(added := {}), fuel - 1).after, fuel - 1);
    case _ =>
  }

  lemma {:induction false} ExpandedByChoice(g: Graph, tokens: seq<string>, cs: seq<nat>, c: Cursor, fuel: nat)
    requires Closed(g) && Within(g, cs) && c.index < |tokens| && RunChoice(g, tokens, cs, c, fuel).Matched?
    ensures RunChoice(g, tokens, cs, c, fuel).after.added == c.added
    decreases |cs|
  {
    var first := Run(g, tokens, cs[0], c.(added := {}), fuel);
    if first.Failed? {
      ExpandedByChoice(g, tokens, cs[1..], c.(emitted := first.emitted), fuel);
    }
  }

  lemma {:induction false} ExpandedByRepeat(g: Graph, tokens: seq<string>, x: nat, r: Cursor, fuel: nat)
    requires Closed(g) && x < |g| && RunRepeat(g, tokens, x, {}, r, fuel).Matched?
    ensures var a := RunRepeat(g, tokens, x, {}, r, fuel).after;
            a.added == if a.index >= |tokens| then Suggest(g, x, Cursor(0, {}, [])).1.added else {}
    decreases fuel
  {
    if r.index >= |tokens| {
      SuggestIgnoresEmitted(g, x, r.(added := {}), Cursor(0, {}, []));
    } else {
      var next := Run(g, tokens, x, r, fuel - 1);
      if next.Matched? {
        ExpandedByRepeat(g, tokens, x, next.after, fuel - 1);
      }
    }
  }

  lemma SkipsIff(g: Graph, rest: seq<nat>, c: Cursor)
    requires Closed(g) && Within(g, rest)
    ensures SuggestList(g, rest, c).0 == OPTIONAL <==> Skips(g, rest, c.added)
  {
    SuggestListIgnoresEmitted(g, rest, c, Cursor(0, c.added, []));
    SkippedIff(g, rest, Cursor(0, c.added, []));
  }

  // ----- a run shows its verdict --------------------------------------------------------------------------

  lemma {:induction false} RunIsShown(g: Graph, tokens: seq<string>, m: nat, c: Cursor, fuel: nat) returns (p: Claim)
    requires Closed(g) && Ready(g, tokens, m, c.index) && Run(g, tokens, m, c, fuel) != Stuck
    ensures p.m == m && p.from == c.index && IsShown(g, tokens, p) && Ended(Run(g, tokens, m, c, fuel)) == Some(p.verdict)
    decreases fuel, 0
  {
    assert RefersInto(g[m], |g|);
    var tried: seq<Claim>, verdict := [], Fails;
    match g[m] {
      case Leaf(t) =>
        verdict := if Accepts(t, tokens[c.index]) then To(c.index + 1) else Fails;
      case List(cs) =>
        tried, verdict := ListIsShown(g, tokens, cs, c.(added := {}), fuel - 1);
      case Optional(x) =>
        var child := RunIsShown(g, tokens, x, c.(added := {}), fuel - 1);
        tried, verdict := [child], if child.verdict.Fails? then To(c.index) else child.verdict;
      case Choice(cs) =>
        tried, verdict := ChoiceIsShown(g, tokens, cs, c, fuel - 1);
      case Repeat(x) =>
        var first := RunIsShown(g, tokens, x, c.(added := {}), fuel - 1);
        tried, verdict := [first], first.verdict;
        if first.verdict.To? {
          var r := Run(g, tokens, x, c.(added := {}), fuel - 1).after;
          var rest, stop := RepeatIsShown(g, tokens, x, c.added, r, fuel - 1);
          RoundsCons(tokens, x, c.index, first, rest, stop);
          tried, verdict := [first] + rest, stop;
        }
    }
    p := Claim(m, c.index, verdict, tried);
  }

  /** The rounds after one that did not fail. */
  predicate MoreRounds(tokens: seq<string>, x: nat, from: nat, rest: seq<Claim>, verdict: Verdict) {
    && (forall i :: 0 <= i < |rest| ==> rest[i].m == x) && IsChain(tokens, from, rest)
    && var reached := Reached(from, rest);
       if reached.Fails? then rest != [] && verdict == To(rest[|rest| - 1].from)
       else reached.index >= |tokens| && verdict == reached
  }

  lemma RoundsCons(tokens: seq<string>, x: nat, from: nat, first: Claim, rest: seq<Claim>, verdict: Verdict)
    requires first.m == x && first.from == from < |tokens| && first.verdict.To?
    requires MoreRounds(tokens, x, first.verdict.index, rest, verdict)
    ensures RepeatFollows(tokens, x, from, [first] + rest, verdict) && MoreRounds(tokens, x, from, [first] + rest, verdict)
  {
    ChainCons(tokens, from, first, first.verdict.index, rest);
    assert forall i :: 0 < i <= |rest| ==> ([first] + rest)[i] == rest[i - 1];
  }

  lemma RoundsTail(tokens: seq<string>, x: nat, from: nat, tried: seq<Claim>, verdict: Verdict)
    requires MoreRounds(tokens, x, from, tried, verdict) && tried != []
    ensures tried[0].m == x && tried[0].from == from < |tokens|
    ensures tried[0].verdict.Fails? ==> verdict == To(from)
    ensures tried[0].verdict.To? ==> MoreRounds(tokens, x, tried[0].verdict.index, tried[1..], verdict)
  {
    ChainTail(tokens, from, tried);
  }

  lemma {:induction false} ListIsShown(g: Graph, tokens: seq<string>, cs: seq<nat>, c: Cursor, fuel: nat)
    returns (tried: seq<Claim>, verdict: Verdict)
    requires Closed(g) && Within(g, cs) && RunList(g, tokens, cs, c, fuel) != Stuck && (c.index < |tokens| ==> c.added == {})
    ensures ListFollows(g, tokens, cs, c.index, c.added, tried, verdict) && AreShown(g, tokens, tried)
    ensures Ended(RunList(g, tokens, cs, c, fuel)) == Some(verdict)
    decreases fuel, 1 + |cs|
  {
    tried, verdict := [], To(c.index);
    if cs != [] && c.index >= |tokens| {
      SkipsIff(g, cs, c);
      verdict := if Skips(g, cs, c.added) then To(c.index) else Fails;
    } else if cs != [] {
      var first := RunIsShown(g, tokens, cs[0], c, fuel);
      tried, verdict := [first], Fails;
      if first.verdict.To? {
        var a := Run(g, tokens, cs[0], c, fuel).after;
        ExpandedAfter(g, tokens, cs[0], c, fuel);
        var rest, last := ListIsShown(g, tokens, cs[1..], a, fuel);
        ListCons(g, tokens, cs, c.index, c.added, first, a.index, a.added, rest, last);
        tried, verdict := [first] + rest, last;
      }
    }
  }

  lemma {:induction false} ChoiceIsShown(g: Graph, tokens: seq<string>, cs: seq<nat>, c: Cursor, fuel: nat)
    returns (tried: seq<Claim>, verdict: Verdict)
    requires Closed(g) && Within(g, cs) && c.index < |tokens| && RunChoice(g, tokens, cs, c, fuel) != Stuck
    ensures ChoiceFollows(cs, c.index, tried, verdict) && AreShown(g, tokens, tried)
    ensures Ended(RunChoice(g, tokens, cs, c, fuel)) == Some(verdict)
    decreases fuel, 1 + |cs|
  {
    tried, verdict := [], Fails;
    if cs != [] {
      var first := RunIsShown(g, tokens, cs[0], c.(added := {}), fuel);
      tried, verdict := [first], first.verdict;
      if first.verdict.Fails? {
        var r := Run(g, tokens, cs[0], c.(added := {}), fuel);
        var rest, last := ChoiceIsShown(g, tokens, cs[1..], c.(emitted := r.emitted), fuel);
        ChoiceCons(cs, c.index, first, rest, last);
        tried, verdict := [first] + rest, last;
      }
    }
  }

  lemma ChoiceCons(cs: seq<nat>, from: nat, first: Claim, rest: seq<Claim>, verdict: Verdict)
    requires cs != [] && first.m == cs[0] && first.from == from && first.verdict == Fails
    requires ChoiceFollows(cs[1..], from, rest, verdict)
    ensures ChoiceFollows(cs, from, [first] + rest, verdict)
  {
    var tried := [first] + rest;
    assert forall i :: 0 < i < |tried| ==> tried[i] == rest[i - 1] && cs[i] == cs[1..][i - 1];
  }

  lemma {:induction false} RepeatIsShown(g: Graph, tokens: seq<string>, x: nat, added: set<nat>, r: Cursor, fuel: nat)
    returns (rest: seq<Claim>, verdict: Verdict)
    requires Closed(g) && x < |g| && RunRepeat(g, tokens, x, added, r, fuel) != Stuck
    ensures MoreRounds(tokens, x, r.index, rest, verdict) && AreShown(g, tokens, rest)
    ensures Ended(RunRepeat(g, tokens, x, added, r, fuel)) == Some(verdict)
    decreases fuel, 1
  {
    rest, verdict := [], To(r.index);
    if r.index < |tokens| {
      var next := RunIsShown(g, tokens, x, r, fuel - 1);
      rest := [next];
      if next.verdict.To? {
        var more, stop := RepeatIsShown(g, tokens, x, added, Run(g, tokens, x, r, fuel - 1).after, fuel - 1);
        RoundsCons(tokens, x, r.index, next, more, stop);
        rest, verdict := [next] + more, stop;
      }
    }
  }

  // ----- what is shown happens ----------------------------------------------------------------------------

  /** The size of a claim is enough fuel. */
  function Size(p: Claim): nat {
    1 + SizeAll(p.tried)
  }

  function SizeAll(ps: seq<Claim>): nat {
    if ps == [] then 0 else Size(ps[0]) + SizeAll(ps[1..])
  }

  /** With that much fuel every run from there ends like that. */
  ghost predicate Happens(g: Graph, tokens: seq<string>, p: Claim)
    requires Closed(g)
  {
    Ready(g, tokens, p.m, p.from) && forall c: Cursor, fuel: nat :: c.index == p.from && fuel >= Size(p) ==> RunsTo(g, tokens, p, c, fuel)
  }

  ghost predicate RunsTo(g: Graph, tokens: seq<string>, p: Claim, c: Cursor, fuel: nat)
    requires Closed(g) && Ready(g, tokens, p.m, c.index)
  {
    Ended(Run(g, tokens, p.m, c, fuel)) == Some(p.verdict)
  }

  ghost predicate AllHappen(g: Graph, tokens: seq<string>, tried: seq<Claim>)
    requires Closed(g)
  {
    forall i :: 0 <= i < |tried| ==> Happens(g, tokens, tried[i])
  }

  lemma {:induction false} ShownHappens(g: Graph, tokens: seq<string>, p: Claim)
    requires Closed(g) && IsShown(g, tokens, p)
    ensures Happens(g, tokens, p)
    decreases p
  {
    forall i | 0 <= i < |p.tried|
      ensures Happens(g, tokens, p.tried[i])
    {
      ShownHappens(g, tokens, p.tried[i]);
    }
    forall c: Cursor, fuel: nat | c.index == p.from && fuel >= Size(p)
      ensures RunsTo(g, tokens, p, c, fuel)
    {
      FollowingIsRun(g, tokens, p, c, fuel);
    }
  }

  lemma FirstHappens(g: Graph, tokens: seq<string>, tried: seq<Claim>, c: Cursor, fuel: nat)
    requires Closed(g) && AllHappen(g, tokens, tried) && tried != [] && c.index == tried[0].from && fuel >= SizeAll(tried)
    ensures Ready(g, tokens, tried[0].m, c.index) && Ended(Run(g, tokens, tried[0].m, c, fuel)) == Some(tried[0].verdict)
    ensures AllHappen(g, tokens, tried[1..]) && fuel > SizeAll(tried[1..])
  {
    assert Happens(g, tokens, tried[0]);
    assert RunsTo(g, tokens, tried[0], c, fuel);
  }

  lemma FollowingIsRun(g: Graph, tokens: seq<string>, p: Claim, c: Cursor, fuel: nat)
    requires Closed(g) && Ready(g, tokens, p.m, p.from) && Follows(g, tokens, p) && AllHappen(g, tokens, p.tried)
    requires c.index == p.from && fuel >= Size(p)
    ensures Ended(Run(g, tokens, p.m, c, fuel)) == Some(p.verdict)
  {
    assert RefersInto(g[p.m], |g|);
    match g[p.m]
    case Leaf(_) =>
    case List(cs) => FollowingIsList(g, tokens, cs, p.tried, p.verdict, c.(added := {}), fuel - 1);
    case Optional(x) => FirstHappens(g, tokens, p.tried, c.(added := {}), fuel - 1);
    case Choice(cs) => FollowingIsChoice(g, tokens, cs, p.tried, p.verdict, c, fuel - 1);
    case Repeat(x) => FollowingIsRounds(g, tokens, p.m, x, p.tried, p.verdict, c, fuel);
  }

  lemma FollowingIsRounds(g: Graph, tokens: seq<string>, m: nat, x: nat, tried: seq<Claim>, verdict: Verdict, c: Cursor, fuel: nat)
    requires Closed(g) && m < |g| && g[m] == Repeat(x) && x < |g| && c.index < |tokens| && AllHappen(g, tokens, tried)
    requires RepeatFollows(tokens, x, c.index, tried, verdict) && fuel > SizeAll(tried)
    ensures Ended(Run(g, tokens, m, c, fuel)) == Some(verdict)
  {
    RoundsHead(tokens, x, c.index, tried, verdict);
    FirstHappens(g, tokens, tried, c.(added := {}), fuel - 1);
    if tried[0].verdict.To? {
      FollowingIsRepeat(g, tokens, x, c.added, tried[1..], verdict, Run(g, tokens, x, c.(added := {}), fuel - 1).after, fuel - 1);
    }
  }

  lemma RoundsHead(tokens: seq<string>, x: nat, from: nat, tried: seq<Claim>, verdict: Verdict)
    requires RepeatFollows(tokens, x, from, tried, verdict)
    ensures tried[0].m == x && tried[0].from == from < |tokens|
    ensures tried[0].verdict.Fails? ==> verdict == Fails
    ensures tried[0].verdict.To? ==> MoreRounds(tokens, x, tried[0].verdict.index, tried[1..], verdict)
  {
    ChainTail(tokens, from, tried);
  }

  lemma {:induction false} FollowingIsList(g: Graph, tokens: seq<string>, cs: seq<nat>, tried: seq<Claim>, verdict: Verdict,
                                       c: Cursor, fuel: nat)
    requires Closed(g) && Within(g, cs) && AllHappen(g, tokens, tried) && (c.index < |tokens| ==> c.added == {})
    requires ListFollows(g, tokens, cs, c.index, c.added, tried, verdict) && fuel >= SizeAll(tried)
    ensures Ended(RunList(g, tokens, cs, c, fuel)) == Some(verdict)
    decreases |tried|
  {
    if tried == [] {
      if cs != [] {
        assert cs[0..] == cs;
        SkipsIff(g, cs, c);
      }
    } else {
      ListTail(g, tokens, cs, c.index, c.added, tried, verdict);
      FirstHappens(g, tokens, tried, c, fuel);
      if tried[0].verdict.To? {
        var a := Run(g, tokens, cs[0], c, fuel).after;
        ExpandedAfter(g, tokens, cs[0], c, fuel);
        ListExpanded(g, tokens, cs[1..], a.index, ExpandedBy(g, cs[0]), a.added, tried[1..], verdict);
        FollowingIsList(g, tokens, cs[1..], tried[1..], verdict, a, fuel);
      }
    }
  }

  /** Expansions only matter at the end of the tokens. */
  lemma ListExpanded(g: Graph, tokens: seq<string>, cs: seq<nat>, from: nat, expanded: set<nat>, other: set<nat>,
                     tried: seq<Claim>, verdict: Verdict)
    requires Closed(g) && Within(g, cs) && ListFollows(g, tokens, cs, from, expanded, tried, verdict)
    requires from >= |tokens| ==> other == expanded
    ensures ListFollows(g, tokens, cs, from, other, tried, verdict)
  {
  }

  lemma {:induction false} FollowingIsChoice(g: Graph, tokens: seq<string>, cs: seq<nat>, tried: seq<Claim>, verdict: Verdict,
                                         c: Cursor, fuel: nat)
    requires Closed(g) && Within(g, cs) && AllHappen(g, tokens, tried) && c.index < |tokens|
    requires ChoiceFollows(cs, c.index, tried, verdict) && fuel >= SizeAll(tried)
    ensures Ended(RunChoice(g, tokens, cs, c, fuel)) == Some(verdict)
    decreases |tried|
  {
    if tried != [] {
      var first := tried[0];
      FirstHappens(g, tokens, tried, c.(added := {}), fuel);
      if first.verdict.Fails? {
        ChoiceTail(cs, c.index, tried, verdict);
        var r := Run(g, tokens, cs[0], c.(added := {}), fuel);
        FollowingIsChoice(g, tokens, cs[1..], tried[1..], verdict, c.(emitted := r.emitted), fuel);
      }
    }
  }

  lemma ChoiceTail(cs: seq<nat>, from: nat, tried: seq<Claim>, verdict: Verdict)
    requires ChoiceFollows(cs, from, tried, verdict) && tried != [] && tried[0].verdict.Fails?
    ensures cs != [] && ChoiceFollows(cs[1..], from, tried[1..], verdict)
  {
  }

  lemma {:induction false} FollowingIsRepeat(g: Graph, tokens: seq<string>, x: nat, added: set<nat>, rest: seq<Claim>,
                                         verdict: Verdict, r: Cursor, fuel: nat)
    requires Closed(g) && x < |g| && AllHappen(g, tokens, rest) && MoreRounds(tokens, x, r.index, rest, verdict)
    requires fuel > SizeAll(rest)
    ensures Ended(RunRepeat(g, tokens, x, added, r, fuel)) == Some(verdict)
    decreases |rest|
  {
    if rest != [] {
      RoundsTail(tokens, x, r.index, rest, verdict);
      FirstHappens(g, tokens, rest, r, fuel - 1);
      var next := Run(g, tokens, x, r, fuel - 1);
      RepeatStep(g, tokens, x, added, r, fuel);
      if rest[0].verdict.To? {
        FollowingIsRepeat(g, tokens, x, added, rest[1..], verdict, next.after, fuel - 1);
      }
    }
  }

  lemma RepeatStep(g: Graph, tokens: seq<string>, x: nat, added: set<nat>, r: Cursor, fuel: nat)
    requires Closed(g) && x < |g| && r.index < |tokens| && fuel > 0
    ensures var next := Run(g, tokens, x, r, fuel - 1);
            (next.Matched? ==> RunRepeat(g, tokens, x, added, r, fuel) == RunRepeat(g, tokens, x, added, next.after, fuel - 1)) &&
            (next.Failed? ==> RunRepeat(g, tokens, x, added, r, fuel) == Matched(Cursor(r.index, added, next.emitted)))
  {
  }

  // ----- the verdict of a match ---------------------------------------------------------------------------

  /** A run ends with a verdict exactly if the verdict is shown. */
  lemma RunIffShown(g: Graph, tokens: seq<string>, m: nat, c: Cursor, verdict: Verdict)
    requires Closed(g) && Ready(g, tokens, m, c.index)
    ensures (exists fuel :: Ended(Run(g, tokens, m, c, fuel)) == Some(verdict)) <==> Shows(g, tokens, m, c.index, verdict)
  {
    if fuel :| Ended(Run(g, tokens, m, c, fuel)) == Some(verdict) {
      var p := RunIsShown(g, tokens, m, c, fuel);
      assert p == Claim(m, c.index, verdict, p.tried);
    }
    if tried: seq<Claim> :| IsShown(g, tokens, Claim(m, c.index, verdict, tried)) {
      var p := Claim(m, c.index, verdict, tried);
      ShownHappens(g, tokens, p);
      assert RunsTo(g, tokens, p, c, Size(p));
    }
  }

  /** Only one verdict can be shown. */
  lemma OneVerdict(g: Graph, tokens: seq<string>, m: nat, from: nat, v: Verdict, w: Verdict)
    requires Closed(g) && Shows(g, tokens, m, from, v) && Shows(g, tokens, m, from, w)
    ensures v == w
  {
    var c := Cursor(from, {}, []);
    RunIffShown(g, tokens, m, c, v);
    RunIffShown(g, tokens, m, c, w);
    var a, b :| Ended(Run(g, tokens, m, c, a)) == Some(v) && Ended(Run(g, tokens, m, c, b)) == Some(w);
    if a <= b {
      MoreFuel(g, tokens, m, c, a, b);
    } else {
      MoreFuel(g, tokens, m, c, b, a);
    }
  }

  /** A keyword matches the tokens that differ from it in the case of letters at most. */
  lemma KeywordIgnoresCase(text: string, token: string)
    ensures Accepts(Keyword(text), token) <==> |text| == |token| && forall i :: 0 <= i < |text| ==> SameLetter(text[i], token[i])
  {
    forall i | 0 <= i < |text| == |token|
      ensures SameLetter(text[i], token[i]) <==> ToLower(text[i]) == ToLower(token[i])
    {
    }
  }

  predicate SameLetter(c: char, d: char) {
    c == d || ('A' <= c <= 'Z' && d as int == c as int + 32) || ('A' <= d <= 'Z' && c as int == d as int + 32)
  }

  // ----- choices and optionals ----------------------------------------------------------------------------

  lemma ShownParts(g: Graph, tokens: seq<string>, p: Claim)
    requires Closed(g) && IsShown(g, tokens, p)
    ensures forall i :: 0 <= i < |p.tried| ==> Shows(g, tokens, p.tried[i].m, p.tried[i].from, p.tried[i].verdict)
  {
    forall i | 0 <= i < |p.tried|
      ensures Shows(g, tokens, p.tried[i].m, p.tried[i].from, p.tried[i].verdict)
    {
      var q := p.tried[i];
      assert q == Claim(q.m, q.from, q.verdict, q.tried);
    }
  }

  /** Claims for the first alternatives. */
  lemma {:induction false} Failures(g: Graph, tokens: seq<string>, cs: seq<nat>, from: nat, n: nat) returns (tried: seq<Claim>)
    requires Closed(g) && n <= |cs| && forall k :: 0 <= k < n ==> Shows(g, tokens, cs[k], from, Fails)
    ensures |tried| == n && AreShown(g, tokens, tried) && FirstFail(tried, n)
    ensures forall i :: 0 <= i < n ==> tried[i].m == cs[i] && tried[i].from == from
  {
    tried := [];
    if n > 0 {
      var before := Failures(g, tokens, cs, from, n - 1);
      var last :| IsShown(g, tokens, Claim(cs[n - 1], from, Fails, last));
      tried := before + [Claim(cs[n - 1], from, Fails, last)];
    }
  }

  /** A choice fails iff every alternative fails from the same index. */
  lemma ChoiceFailsIff(g: Graph, tokens: seq<string>, m: nat, from: nat)
    requires Closed(g) && m < |g| && g[m].Choice? && from < |tokens|
    ensures Shows(g, tokens, m, from, Fails) <==>
            forall i :: 0 <= i < |g[m].children| ==> Shows(g, tokens, g[m].children[i], from, Fails)
  {
    assert RefersInto(g[m], |g|);
    var cs := g[m].children;
    if tried: seq<Claim> :| IsShown(g, tokens, Claim(m, from, Fails, tried)) {
      ShownParts(g, tokens, Claim(m, from, Fails, tried));
      assert forall i :: 0 <= i < |cs| ==> tried[i].m == cs[i] && tried[i].from == from && tried[i].verdict == Fails;
    }
    if forall i :: 0 <= i < |cs| ==> Shows(g, tokens, cs[i], from, Fails) {
      var tried := Failures(g, tokens, cs, from, |cs|);
      assert IsShown(g, tokens, Claim(m, from, Fails, tried));
    }
  }

  /** It stops where the first alternative that does not fail stops. */
  lemma ChoiceStopsIff(g: Graph, tokens: seq<string>, m: nat, from: nat, at: nat)
    requires Closed(g) && m < |g| && g[m].Choice? && from < |tokens|
    ensures Shows(g, tokens, m, from, To(at)) <==> exists i :: FirstThatStops(g, tokens, g[m].children, from, at, i)
  {
    assert RefersInto(g[m], |g|);
    var cs := g[m].children;
    if tried: seq<Claim> :| IsShown(g, tokens, Claim(m, from, To(at), tried)) {
      ShownParts(g, tokens, Claim(m, from, To(at), tried));
      var i := |tried| - 1;
      assert tried[i].m == cs[i] && Shows(g, tokens, cs[i], from, To(at));
      assert forall k :: 0 <= k < i ==> tried[k].m == cs[k] && tried[k].from == from && tried[k].verdict == Fails;
      assert FirstThatStops(g, tokens, cs, from, at, i);
    }
    if i :| FirstThatStops(g, tokens, cs, from, at, i) {
      FirstStops(g, tokens, m, cs, from, at, i);
    }
  }

  ghost predicate FirstThatStops(g: Graph, tokens: seq<string>, cs: seq<nat>, from: nat, at: nat, i: nat)
    requires Closed(g)
  {
    i < |cs| && Shows(g, tokens, cs[i], from, To(at)) && forall k :: 0 <= k < i ==> Shows(g, tokens, cs[k], from, Fails)
  }

  lemma FirstStops(g: Graph, tokens: seq<string>, m: nat, cs: seq<nat>, from: nat, at: nat, i: nat)
    requires Closed(g) && m < |g| && g[m] == Choice(cs) && from < |tokens| && FirstThatStops(g, tokens, cs, from, at, i)
    ensures Shows(g, tokens, m, from, To(at))
  {
    assert RefersInto(g[m], |g|);
    var before := Failures(g, tokens, cs, from, i);
    var last :| IsShown(g, tokens, Claim(cs[i], from, To(at), last));
    assert IsShown(g, tokens, Claim(m, from, To(at), before + [Claim(cs[i], from, To(at), last)]));
  }

  /** An optional never fails; it stays in place iff its child fails or matches in place. */
  lemma OptionalStopsIff(g: Graph, tokens: seq<string>, m: nat, from: nat, at: nat)
    requires Closed(g) && m < |g| && g[m].Optional? && from < |tokens|
    ensures !Shows(g, tokens, m, from, Fails)
    ensures Shows(g, tokens, m, from, To(at)) <==>
            Shows(g, tokens, g[m].child, from, To(at)) || (at == from && Shows(g, tokens, g[m].child, from, Fails))
  {
    assert RefersInto(g[m], |g|);
    var x := g[m].child;
    if tried: seq<Claim> :| IsShown(g, tokens, Claim(m, from, To(at), tried)) {
      ShownParts(g, tokens, Claim(m, from, To(at), tried));
    }
    if tried: seq<Claim> :| IsShown(g, tokens, Claim(x, from, To(at), tried)) {
      assert IsShown(g, tokens, Claim(m, from, To(at), [Claim(x, from, To(at), tried)]));
    }
    if tried: seq<Claim> :| at == from && IsShown(g, tokens, Claim(x, from, Fails, tried)) {
      assert IsShown(g, tokens, Claim(m, from, To(at), [Claim(x, from, Fails, tried)]));
    }
  }

  // ----- suggestions --------------------------------------------------------------------------------------

  function EmittedBy(o: Outcome, before: seq<Suggestion>): seq<Suggestion> {
    match o
    case Matched(a) => a.emitted
    case Failed(emitted) => emitted
    case Stuck => before
  }

  /** A run only appends suggestions, also when it fails. */
  lemma {:induction false} RunAppends(g: Graph, tokens: seq<string>, m: nat, c: Cursor, fuel: nat)
    requires Closed(g) && Ready(g, tokens, m, c.index)
    ensures c.emitted <= EmittedBy(Run(g, tokens, m, c, fuel), c.emitted)
    decreases fuel, 0
  {
    if fuel > 0 {
      assert RefersInto(g[m], |g|);
      var d := c.(added := {});
      match g[m]
      case Leaf(_) =>
      case List(cs) => ListAppends(g, tokens, cs, d, fuel - 1);
      case Optional(x) => RunAppends(g, tokens, x, d, fuel - 1);
      case Choice(cs) => ChoiceAppends(g, tokens, cs, c, fuel - 1);
      case Repeat(x) =>
        RunAppends(g, tokens, x, d, fuel - 1);
        if Run(g, tokens, x, d, fuel - 1).Matched? {
          RepeatAppends(g, tokens, x, c.added, Run(g, tokens, x, d, fuel - 1).after, fuel - 1);
        }
    }
  }

  lemma {:induction false} ListAppends(g: Graph, tokens: seq<string>, cs: seq<nat>, c: Cursor, fuel: nat)
    requires Closed(g) && Within(g, cs)
    ensures c.emitted <= EmittedBy(RunList(g, tokens, cs, c, fuel), c.emitted)
    decreases fuel, 1 + |cs|
  {
    if cs != [] && c.index < |tokens| {
      RunAppends(g, tokens, cs[0], c, fuel);
      var first := Run(g, tokens, cs[0], c, fuel);
      if first.Matched? {
        ListAppends(g, tokens, cs[1..], first.after, fuel);
      }
    }
  }

  lemma {:induction false} ChoiceAppends(g: Graph, tokens: seq<string>, cs: seq<nat>, c: Cursor, fuel: nat)
    requires Closed(g) && Within(g, cs) && c.index < |tokens|
    ensures c.emitted <= EmittedBy(RunChoice(g, tokens, cs, c, fuel), c.emitted)
    decreases fuel, 1 + |cs|
  {
    if cs != [] {
      RunAppends(g, tokens, cs[0], c.(added := {}), fuel);
      var first := Run(g, tokens, cs[0], c.(added := {}), fuel);
      if first.Failed? {
        ChoiceAppends(g, tokens, cs[1..], c.(emitted := first.emitted), fuel);
      }
    }
  }

  lemma {:induction false} RepeatAppends(g: Graph, tokens: seq<string>, x: nat, added: set<nat>, r: Cursor, fuel: nat)
    requires Closed(g) && x < |g|
    ensures r.emitted <= EmittedBy(RunRepeat(g, tokens, x, added, r, fuel), r.emitted)
    decreases fuel, 1
  {
    if r.index < |tokens| && fuel > 0 {
      RunAppends(g, tokens, x, r, fuel - 1);
      var next := Run(g, tokens, x, r, fuel - 1);
      if next.Matched? {
        RepeatAppends(g, tokens, x, added, next.after, fuel - 1);
      }
    }
  }

  /** What expanding a matcher expands with it: the child of an optional or a repetition, every alternative, and the
      first child of a list. */
  predicate ChildrenIn(g: Graph, m: nat, added: set<nat>)
    requires m < |g|
  {
    match g[m]
    case Leaf(_) => true
    case List(cs) => cs != [] ==> cs[0] in added
    case Optional(x) => x in added
    case Choice(cs) => forall k :: 0 <= k < |cs| ==> cs[k] in added
    case Repeat(x) => x in added
  }

  ghost predicate NewAreClosed(g: Graph, before: set<nat>, after: set<nat>) {
    forall k :: k in after && k !in before && k < |g| ==> ChildrenIn(g, k, after)
  }

  lemma {:induction false} ExpansionsAreClosed(g: Graph, m: nat, c: Cursor)
    requires Closed(g) && m < |g|
    ensures NewAreClosed(g, c.added, Suggest(g, m, c).1.added)
    decreases Unexpanded(g, c.added), 0, 0
  {
    if m !in c.added {
      assert RefersInto(g[m], |g|);
      assert m in Unexpanded(g, c.added) && m !in Unexpanded(g, c.added + {m});
      var d := c.(added := c.added + {m});
      match g[m]
      case Leaf(_) =>
      case List(cs) => ListExpansionsAreClosed(g, cs, d);
      case Optional(x) => ExpansionsAreClosed(g, x, d);
      case Choice(cs) => EachExpansionsAreClosed(g, cs, d);
      case Repeat(x) => ExpansionsAreClosed(g, x, d);
    }
  }

  lemma {:induction false} ListExpansionsAreClosed(g: Graph, cs: seq<nat>, c: Cursor)
    requires Closed(g) && Within(g, cs)
    ensures NewAreClosed(g, c.added, SuggestList(g, cs, c).1.added)
    ensures cs != [] ==> cs[0] in SuggestList(g, cs, c).1.added
    decreases Unexpanded(g, c.added), 1, |cs|
  {
    if cs != [] {
      var a := Suggest(g, cs[0], c).1;
      ExpansionsAreClosed(g, cs[0], c);
      ListExpansionsAreClosed(g, cs[1..], a);
    }
  }

  lemma {:induction false} EachExpansionsAreClosed(g: Graph, cs: seq<nat>, c: Cursor)
    requires Closed(g) && Within(g, cs)
    ensures NewAreClosed(g, c.added, SuggestEach(g, cs, c).added)
    ensures forall k :: 0 <= k < |cs| ==> cs[k] in SuggestEach(g, cs, c).added
    decreases Unexpanded(g, c.added), 1, |cs|
  {
    if cs != [] {
      ExpansionsAreClosed(g, cs[0], c);
      EachExpansionsAreClosed(g, cs[1..], Suggest(g, cs[0], c).1);
    }
  }
}
