/** When a match must succeed: on graphs where the next token decides every choice, whatever a matcher derives is
    matched. Elsewhere it need not be, since the first alternative that does not fail is kept. */
module PegCompleteness {
  import opened Common
  import opened PegMatcher
  import opened PegSoundness
  import opened PegMeaning

  /** For each matcher: can it take no token, which tokens can it begin with, and which can come after it? All three may
      be larger than what is the case. */
  datatype Table = Table(empty: seq<bool>, first: (nat, string) -> bool, follow: (nat, string) -> bool)

  ghost predicate AllEmpty(table: Table, cs: seq<nat>, from: nat, to: nat) {
    forall i :: from <= i < to && i < |cs| ==> cs[i] < |table.empty| && table.empty[cs[i]]
  }

  ghost predicate BeginsWith(g: Graph, table: Table, m: nat, w: string)
    requires Closed(g) && m < |g|
  {
    match g[m]
    case Leaf(t) => Accepts(t, w)
    case List(cs) => exists k :: 0 <= k < |cs| && AllEmpty(table, cs, 0, k) && table.first(cs[k], w)
    case Optional(x) => table.first(x, w)
    case Choice(cs) => exists k :: 0 <= k < |cs| && table.first(cs[k], w)
    case Repeat(x) => table.first(x, w)
  }

  /** What can come after child `k` of a list: what the next children begin with, or what comes after the list. */
  ghost predicate ComesAfter(table: Table, m: nat, cs: seq<nat>, k: nat, w: string) {
    (AllEmpty(table, cs, k + 1, |cs|) && table.follow(m, w)) ||
    exists j :: k < j < |cs| && AllEmpty(table, cs, k + 1, j) && table.first(cs[j], w)
  }

  ghost predicate HandsOn(g: Graph, table: Table, m: nat, w: string)
    requires Closed(g) && m < |g|
  {
    match g[m]
    case Leaf(_) => true
    case List(cs) => forall k :: 0 <= k < |cs| && ComesAfter(table, m, cs, k, w) ==> table.follow(cs[k], w)
    case Optional(x) => table.follow(m, w) ==> table.follow(x, w)
    case Choice(cs) => table.follow(m, w) ==> forall k :: 0 <= k < |cs| ==> table.follow(cs[k], w)
    case Repeat(x) => table.follow(m, w) || table.first(x, w) ==> table.follow(x, w)
  }

  /** A token that begins an alternative does not begin a later one, and one that begins an optional or another round
      does not come after it. */
  ghost predicate Decides(g: Graph, table: Table, m: nat, w: string)
    requires Closed(g) && m < |g| && |table.empty| == |g|
  {
    assert RefersInto(g[m], |g|);
    match g[m]
    case Leaf(_) => true
    case List(_) => true
    case Optional(x) => !(table.first(x, w) && table.follow(m, w))
    case Choice(cs) =>
      forall i, j :: 0 <= i < j < |cs| && table.first(cs[i], w) ==>
        !table.first(cs[j], w) && !(table.empty[cs[j]] && table.follow(m, w))
    case Repeat(x) => !(table.first(x, w) && table.follow(m, w))
  }

  /** Only the last alternative can be empty, rounds are not, and the last children of a list that can be empty are
      skipped at the end of the tokens. */
  ghost predicate EmptyAtEnd(g: Graph, table: Table, m: nat)
    requires Closed(g) && m < |g| && |table.empty| == |g|
  {
    assert RefersInto(g[m], |g|);
    match g[m]
    case Leaf(_) => true
    case List(cs) => forall k :: 0 <= k < |cs| && AllEmpty(table, cs, k, |cs|) ==> SkipsFrom(g, cs, k)
    case Optional(_) => true
    case Choice(cs) => forall i :: 0 <= i < |cs| - 1 ==> !table.empty[cs[i]]
    case Repeat(x) => !table.empty[x]
  }

  ghost predicate SkipsFrom(g: Graph, cs: seq<nat>, k: nat)
    requires Closed(g) && Within(g, cs) && k < |cs|
  {
    Skips(g, cs[k..], if k == 0 then {} else ExpandedBy(g, cs[k - 1]))
  }

  ghost predicate Predictive(g: Graph, table: Table)
    requires Closed(g)
  {
    Empties(g, table.empty) && (forall m :: 0 <= m < |g| ==> EmptyAtEnd(g, table, m)) &&
    forall m: nat, w: string :: m < |g| ==> TokenDecides(g, table, m, w)
  }

  ghost predicate TokenDecides(g: Graph, table: Table, m: nat, w: string)
    requires Closed(g) && m < |g| && |table.empty| == |g|
  {
    (BeginsWith(g, table, m, w) ==> table.first(m, w)) && HandsOn(g, table, m, w) && Decides(g, table, m, w)
  }

  // ----- first tokens ---------------------------------------------------------------------------------------

  /** The first tree that has tokens. */
  lemma {:induction false} FirstWithTokens(ts: seq<Tree>) returns (k: nat)
    requires YieldAll(ts) != []
    ensures k < |ts| && Yield(ts[k]) != [] && YieldAll(ts)[0] == Yield(ts[k])[0]
    ensures forall i :: 0 <= i < k ==> Yield(ts[i]) == []
  {
    k := 0;
    if Yield(ts[0]) == [] {
      assert YieldAll(ts) == YieldAll(ts[1..]);
      var later := FirstWithTokens(ts[1..]);
      k := later + 1;
      assert forall i :: 0 < i < k ==> ts[i] == ts[1..][i - 1];
    }
  }

  lemma {:induction false} EmptyChildren(g: Graph, table: Table, cs: seq<nat>, ts: seq<Tree>, from: nat, to: nat)
    requires Closed(g) && Empties(g, table.empty) && FitsAll(g, cs, ts)
    requires forall i :: from <= i < to && i < |ts| ==> Yield(ts[i]) == []
    ensures AllEmpty(table, cs, from, to)
  {
    forall i | from <= i < to && i < |cs|
      ensures cs[i] < |table.empty| && table.empty[cs[i]]
    {
      EmptyIsMarked(g, table.empty, cs[i], ts[i]);
    }
  }

  lemma {:induction false} FirstIsMarked(g: Graph, table: Table, m: nat, t: Tree)
    requires Closed(g) && Predictive(g, table) && Fits(g, m, t) && Yield(t) != []
    ensures table.first(m, Yield(t)[0])
    decreases t
  {
    assert RefersInto(g[m], |g|);
    var w := Yield(t)[0];
    if t.Node? {
      var k := FirstWithTokens(t.children);
      match g[m]
      case List(cs) =>
        FirstIsMarked(g, table, cs[k], t.children[k]);
        EmptyChildren(g, table, cs, t.children, 0, k);
      case Choice(cs) =>
        var i :| 0 <= i < |cs| && Fits(g, cs[i], t.children[0]);
        FirstIsMarked(g, table, cs[i], t.children[0]);
      case Optional(x) => FirstIsMarked(g, table, x, t.children[k]);
      case Repeat(x) => FirstIsMarked(g, table, x, t.children[k]);
    }
    assert BeginsWith(g, table, m, w);
    assert TokenDecides(g, table, m, w);
  }

  /** A match that the next token rules out does not move. */
  lemma StaysInPlace(g: Graph, table: Table, tokens: seq<string>, m: nat, c: Cursor, fuel: nat)
    requires Closed(g) && Predictive(g, table) && Ready(g, tokens, m, c.index) && c.index < |tokens|
    requires !table.first(m, tokens[c.index]) && Run(g, tokens, m, c, fuel).Matched?
    ensures Run(g, tokens, m, c, fuel).after.index == c.index && table.empty[m]
  {
    var t := RunIsSound(g, tokens, m, c, fuel);
    if Yield(t) != [] {
      FirstIsMarked(g, table, m, t);
      assert false;
    }
    EmptyIsMarked(g, table.empty, m, t);
  }

  // ----- completeness ---------------------------------------------------------------------------------------

  lemma SpansSplit(tokens: seq<string>, from: nat, to: nat, a: seq<string>, b: seq<string>)
    requires Spans(tokens, from, to, a + b)
    ensures Spans(tokens, from, from + |a|, a) && Spans(tokens, from + |a|, to, b)
  {
    assert a == (a + b)[..|a|] && b == (a + b)[|a|..];
  }

  /** The next token may come after the matcher. */
  predicate MayFollow(table: Table, tokens: seq<string>, m: nat, at: nat) {
    at < |tokens| ==> table.follow(m, tokens[at])
  }

  ghost predicate StopsAt(o: Outcome, at: nat) {
    o.Matched? && o.after.index == at
  }

  /** What a matcher derives is matched, if what comes after it may come there. */
  lemma {:induction false} DerivedIsMatched(g: Graph, table: Table, tokens: seq<string>, m: nat, c: Cursor, to: nat, t: Tree, fuel: nat)
    requires Closed(g) && Predictive(g, table) && Ready(g, tokens, m, c.index) && Fits(g, m, t)
    requires Spans(tokens, c.index, to, Yield(t)) && MayFollow(table, tokens, m, to)
    requires Run(g, tokens, m, c, fuel) != Stuck
    ensures StopsAt(Run(g, tokens, m, c, fuel), to)
    decreases t, 2, 0
  {
    assert RefersInto(g[m], |g|);
    assert to < |tokens| ==> TokenDecides(g, table, m, tokens[to]);
    match g[m]
    case Leaf(_) =>
    case List(cs) => DerivedWholeListIsMatched(g, table, tokens, m, cs, c, to, t, fuel);
    case Optional(x) =>
      if t.children == [] {
        assert t == Node([]) && Yield(t) == [] && to == c.index;
        OptionalStays(g, table, tokens, m, x, c, fuel);
      } else {
        assert t.children == [t.children[0]];
        YieldOne(t.children[0]);
        DerivedIsMatched(g, table, tokens, x, c.(added := {}), to, t.children[0], fuel - 1);
      }
    case Choice(cs) =>
      assert t.children == [t.children[0]];
      YieldOne(t.children[0]);
      var i :| 0 <= i < |cs| && Fits(g, cs[i], t.children[0]);
      assert cs[0..] == cs;
      DerivedChoiceIsMatched(g, table, tokens, m, cs, i, 0, c, to, t.children[0], fuel - 1);
    case Repeat(x) => DerivedRepeatIsMatched(g, table, tokens, m, x, c, to, t, fuel);
  }

  lemma {:induction false} DerivedWholeListIsMatched(g: Graph, table: Table, tokens: seq<string>, m: nat, cs: seq<nat>, c: Cursor,
                                                     to: nat, t: Tree, fuel: nat)
    requires Closed(g) && Predictive(g, table) && m < |g| && g[m] == List(cs) && Within(g, cs) && Fits(g, m, t)
    requires Spans(tokens, c.index, to, Yield(t)) && MayFollow(table, tokens, m, to)
    requires Run(g, tokens, m, c, fuel) != Stuck
    ensures StopsAt(Run(g, tokens, m, c, fuel), to)
    decreases t, 1, |cs| + 1
  {
    assert t.children[0..] == t.children && cs[0..] == cs;
    DerivedListIsMatched(g, table, tokens, m, cs, 0, c.(added := {}), to, t, fuel - 1);
  }

  lemma OptionalStays(g: Graph, table: Table, tokens: seq<string>, m: nat, x: nat, c: Cursor, fuel: nat)
    requires Closed(g) && Predictive(g, table) && m < |g| && g[m] == Optional(x) && x < |g| && c.index < |tokens|
    requires MayFollow(table, tokens, m, c.index) && Run(g, tokens, m, c, fuel) != Stuck
    ensures StopsAt(Run(g, tokens, m, c, fuel), c.index)
  {
    assert TokenDecides(g, table, m, tokens[c.index]);
    if Run(g, tokens, x, c.(added := {}), fuel - 1).Matched? {
      StaysInPlace(g, table, tokens, x, c.(added := {}), fuel - 1);
    }
  }

  lemma {:induction false} DerivedRepeatIsMatched(g: Graph, table: Table, tokens: seq<string>, m: nat, x: nat, c: Cursor, to: nat,
                                                  t: Tree, fuel: nat)
    requires Closed(g) && Predictive(g, table) && m < |g| && g[m] == Repeat(x) && x < |g| && c.index < |tokens| && Fits(g, m, t)
    requires Spans(tokens, c.index, to, Yield(t)) && MayFollow(table, tokens, m, to)
    requires Run(g, tokens, m, c, fuel) != Stuck
    ensures StopsAt(Run(g, tokens, m, c, fuel), to)
    decreases t, 1, |t.children|
  {
    assert t.children[0..] == t.children;
    FirstRound(g, table, tokens, m, x, 0, c.index, to, t);
    var first := c.(added := {});
    DerivedIsMatched(g, table, tokens, x, first, c.index + |Yield(t.children[0])|, t.children[0], fuel - 1);
    var r := Run(g, tokens, x, first, fuel - 1).after;
    DerivedRoundsAreMatched(g, table, tokens, m, x, 1, c.added, r, to, t, fuel - 1);
  }

  lemma {:induction false} DerivedChoiceIsMatched(g: Graph, table: Table, tokens: seq<string>, m: nat, cs: seq<nat>, i: nat, k: nat,
                                                  c: Cursor, to: nat, t: Tree, fuel: nat)
    requires Closed(g) && Predictive(g, table) && m < |g| && g[m] == Choice(cs) && Within(g, cs) && c.index < |tokens|
    requires k <= i < |cs| && Fits(g, cs[i], t) && Spans(tokens, c.index, to, Yield(t)) && MayFollow(table, tokens, m, to)
    requires RunChoice(g, tokens, cs[k..], c, fuel) != Stuck
    ensures StopsAt(RunChoice(g, tokens, cs[k..], c, fuel), to)
    decreases t, 3, i - k
  {
    assert to < |tokens| ==> TokenDecides(g, table, m, tokens[to]);
    assert cs[k..][1..] == cs[k + 1..];
    if k == i {
      DerivedIsMatched(g, table, tokens, cs[i], c.(added := {}), to, t, fuel);
    } else {
      EarlierIsRuledOut(g, table, tokens, m, cs, i, k, c.index, to, t);
      assert EmptyAtEnd(g, table, m);
      var first := Run(g, tokens, cs[k], c.(added := {}), fuel);
      if first.Matched? {
        StaysInPlace(g, table, tokens, cs[k], c.(added := {}), fuel);
        assert false;
      }
      DerivedChoiceIsMatched(g, table, tokens, m, cs, i, k + 1, c.(emitted := first.emitted), to, t, fuel);
    }
  }

  lemma EarlierIsRuledOut(g: Graph, table: Table, tokens: seq<string>, m: nat, cs: seq<nat>, i: nat, k: nat, from: nat, to: nat, t: Tree)
    requires Closed(g) && Predictive(g, table) && m < |g| && g[m] == Choice(cs) && Within(g, cs) && from < |tokens|
    requires k < i < |cs| && Fits(g, cs[i], t) && Spans(tokens, from, to, Yield(t)) && MayFollow(table, tokens, m, to)
    ensures !table.first(cs[k], tokens[from])
  {
    var w := tokens[from];
    assert TokenDecides(g, table, m, w);
    if Yield(t) == [] {
      EmptyIsMarked(g, table.empty, cs[i], t);
    } else {
      FirstIsMarked(g, table, cs[i], t);
      assert Yield(t)[0] == w;
    }
  }

  /** A round takes at least a token, and what comes after it may come after a round. */
  lemma FirstRound(g: Graph, table: Table, tokens: seq<string>, m: nat, x: nat, k: nat, from: nat, to: nat, t: Tree)
    requires Closed(g) && Predictive(g, table) && m < |g| && g[m] == Repeat(x) && x < |g| && Fits(g, m, t) && k < |t.children|
    requires Spans(tokens, from, to, YieldAll(t.children[k..])) && MayFollow(table, tokens, m, to)
    ensures var u := t.children[k];
            && from < |tokens| && Yield(u) != []
            && Spans(tokens, from, from + |Yield(u)|, Yield(u)) && Spans(tokens, from + |Yield(u)|, to, YieldAll(t.children[k + 1..]))
            && MayFollow(table, tokens, x, from + |Yield(u)|)
  {
    var u, rest := t.children[k], t.children[k + 1..];
    assert t.children[k..][1..] == rest;
    SpansSplit(tokens, from, to, Yield(u), YieldAll(rest));
    assert EmptyAtEnd(g, table, m);
    if Yield(u) == [] {
      EmptyIsMarked(g, table.empty, x, u);
    }
    RoundMayFollow(g, table, tokens, m, x, from + |Yield(u)|, to, rest);
  }

  lemma RoundMayFollow(g: Graph, table: Table, tokens: seq<string>, m: nat, x: nat, at: nat, to: nat, rest: seq<Tree>)
    requires Closed(g) && Predictive(g, table) && m < |g| && g[m] == Repeat(x) && x < |g| && !table.empty[x]
    requires (forall i :: 0 <= i < |rest| ==> Fits(g, x, rest[i]))
    requires Spans(tokens, at, to, YieldAll(rest)) && MayFollow(table, tokens, m, to)
    ensures MayFollow(table, tokens, x, at)
  {
    if at < |tokens| {
      assert TokenDecides(g, table, m, tokens[at]);
      if rest != [] {
        NextRoundBegins(g, table, x, rest);
        assert YieldAll(rest)[0] == tokens[at];
      }
    }
  }

  lemma NextRoundBegins(g: Graph, table: Table, x: nat, rest: seq<Tree>)
    requires Closed(g) && Predictive(g, table) && x < |g| && !table.empty[x] && rest != []
    requires forall i :: 0 <= i < |rest| ==> Fits(g, x, rest[i])
    ensures YieldAll(rest) != [] && table.first(x, YieldAll(rest)[0])
  {
    if Yield(rest[0]) == [] {
      EmptyIsMarked(g, table.empty, x, rest[0]);
    }
    FirstIsMarked(g, table, x, rest[0]);
  }

  lemma {:induction false} DerivedRoundsAreMatched(g: Graph, table: Table, tokens: seq<string>, m: nat, x: nat, k: nat,
                                                   added: set<nat>, r: Cursor, to: nat, t: Tree, fuel: nat)
    requires Closed(g) && Predictive(g, table) && m < |g| && g[m] == Repeat(x) && x < |g| && Fits(g, m, t) && k <= |t.children|
    requires Spans(tokens, r.index, to, YieldAll(t.children[k..])) && MayFollow(table, tokens, m, to)
    requires RunRepeat(g, tokens, x, added, r, fuel) != Stuck
    ensures StopsAt(RunRepeat(g, tokens, x, added, r, fuel), to)
    decreases t, 1, |t.children| - k
  {
    if k < |t.children| {
      FirstRound(g, table, tokens, m, x, k, r.index, to, t);
      DerivedIsMatched(g, table, tokens, x, r, r.index + |Yield(t.children[k])|, t.children[k], fuel - 1);
      var next := Run(g, tokens, x, r, fuel - 1).after;
      DerivedRoundsAreMatched(g, table, tokens, m, x, k + 1, added, next, to, t, fuel - 1);
    } else if r.index < |tokens| {
      assert t.children[k..] == [];
      assert TokenDecides(g, table, m, tokens[to]) && EmptyAtEnd(g, table, m);
      if Run(g, tokens, x, r, fuel - 1).Matched? {
        StaysInPlace(g, table, tokens, x, r, fuel - 1);
        assert false;
      }
    }
  }

  /** What has been expanded when children `k..` are reached. */
  ghost predicate ExpandedBefore(g: Graph, tokens: seq<string>, cs: seq<nat>, k: nat, c: Cursor)
    requires Closed(g) && Within(g, cs) && k <= |cs|
  {
    c.added == if c.index < |tokens| || k == 0 then {} else ExpandedBy(g, cs[k - 1])
  }

  lemma {:induction false} DerivedListIsMatched(g: Graph, table: Table, tokens: seq<string>, m: nat, cs: seq<nat>, k: nat,
                                                c: Cursor, to: nat, t: Tree, fuel: nat)
    requires Closed(g) && Predictive(g, table) && m < |g| && g[m] == List(cs) && Within(g, cs) && k <= |cs|
    requires t.Node? && FitsAll(g, cs, t.children)
    requires Spans(tokens, c.index, to, YieldAll(t.children[k..])) && MayFollow(table, tokens, m, to)
    requires ExpandedBefore(g, tokens, cs, k, c) && RunList(g, tokens, cs[k..], c, fuel) != Stuck
    ensures StopsAt(RunList(g, tokens, cs[k..], c, fuel), to)
    decreases t, 1, |cs| - k
  {
    if k < |cs| {
      assert cs[k..][0] == cs[k] && cs[k..][1..] == cs[k + 1..];
      if c.index >= |tokens| {
        RestIsSkipped(g, table, tokens, m, cs, k, c, to, t.children);
      } else {
        NextChild(g, table, tokens, m, cs, k, c.index, to, t.children);
        DerivedIsMatched(g, table, tokens, cs[k], c, c.index + |Yield(t.children[k])|, t.children[k], fuel);
        ExpandedAfter(g, tokens, cs[k], c, fuel);
        DerivedListIsMatched(g, table, tokens, m, cs, k + 1, Run(g, tokens, cs[k], c, fuel).after, to, t, fuel);
      }
    }
  }

  lemma RestIsSkipped(g: Graph, table: Table, tokens: seq<string>, m: nat, cs: seq<nat>, k: nat, c: Cursor, to: nat, ts: seq<Tree>)
    requires Closed(g) && Predictive(g, table) && m < |g| && g[m] == List(cs) && Within(g, cs) && FitsAll(g, cs, ts) && k < |cs|
    requires c.index >= |tokens| && Spans(tokens, c.index, to, YieldAll(ts[k..])) && ExpandedBefore(g, tokens, cs, k, c)
    ensures to == c.index && SuggestList(g, cs[k..], c).0 == OPTIONAL
  {
    RestIsEmpty(g, table, cs, k, ts);
    assert EmptyAtEnd(g, table, m);
    assert SkipsFrom(g, cs, k);
    SkipsIff(g, cs[k..], c);
  }

  lemma RestIsEmpty(g: Graph, table: Table, cs: seq<nat>, k: nat, ts: seq<Tree>)
    requires Closed(g) && Empties(g, table.empty) && FitsAll(g, cs, ts) && k <= |cs| && YieldAll(ts[k..]) == []
    ensures AllEmpty(table, cs, k, |cs|)
  {
    forall i | k <= i < |cs|
      ensures Yield(ts[i]) == []
    {
      EmptyYield(ts[k..], i - k);
    }
    EmptyChildren(g, table, cs, ts, k, |cs|);
  }

  lemma NextChild(g: Graph, table: Table, tokens: seq<string>, m: nat, cs: seq<nat>, k: nat, from: nat, to: nat, ts: seq<Tree>)
    requires Closed(g) && Predictive(g, table) && m < |g| && g[m] == List(cs) && FitsAll(g, cs, ts) && k < |cs|
    requires Spans(tokens, from, to, YieldAll(ts[k..])) && MayFollow(table, tokens, m, to)
    ensures var next := from + |Yield(ts[k])|;
            && Spans(tokens, from, next, Yield(ts[k])) && Spans(tokens, next, to, YieldAll(ts[k + 1..]))
            && MayFollow(table, tokens, cs[k], next)
  {
    assert ts[k..][0] == ts[k] && ts[k..][1..] == ts[k + 1..];
    SpansSplit(tokens, from, to, Yield(ts[k]), YieldAll(ts[k + 1..]));
    NextMayFollow(g, table, tokens, m, cs, k, from + |Yield(ts[k])|, to, ts);
  }

  lemma NextMayFollow(g: Graph, table: Table, tokens: seq<string>, m: nat, cs: seq<nat>, k: nat, at: nat, to: nat, ts: seq<Tree>)
    requires Closed(g) && Predictive(g, table) && m < |g| && g[m] == List(cs) && FitsAll(g, cs, ts) && k < |cs|
    requires Spans(tokens, at, to, YieldAll(ts[k + 1..])) && MayFollow(table, tokens, m, to)
    ensures MayFollow(table, tokens, cs[k], at)
  {
    if at < |tokens| {
      var w := tokens[at];
      if at == to {
        RestIsEmpty(g, table, cs, k + 1, ts);
      } else {
        LaterChildBegins(g, table, cs, k, ts, w);
      }
      assert ComesAfter(table, m, cs, k, w);
      assert TokenDecides(g, table, m, w);
    }
  }

  /** One of the children after child `k` begins with the next token, and those between are empty. */
  lemma LaterChildBegins(g: Graph, table: Table, cs: seq<nat>, k: nat, ts: seq<Tree>, w: string)
    requires Closed(g) && Predictive(g, table) && FitsAll(g, cs, ts) && k < |cs|
    requires YieldAll(ts[k + 1..]) != [] && YieldAll(ts[k + 1..])[0] == w
    ensures exists j :: k < j < |cs| && AllEmpty(table, cs, k + 1, j) && table.first(cs[j], w)
  {
    var rest := ts[k + 1..];
    var l := FirstWithTokens(rest);
    var j := k + 1 + l;
    assert forall i :: k + 1 <= i < j ==> ts[i] == rest[i - (k + 1)];
    EmptyChildren(g, table, cs, ts, k + 1, j);
    FirstIsMarked(g, table, cs[j], ts[j]);
  }

  /** Where the next token decides, the statements that are accepted are those that are derived. */
  lemma AcceptedIffDerived(g: Graph, table: Table, root: nat, statement: seq<string>, fuel: nat)
    requires Closed(g) && Predictive(g, table) && Ready(g, statement, root, 0) && Run(g, statement, root, START, fuel) != Stuck
    ensures ParsesFully(g, root, statement, fuel) <==> Derives(g, root, statement)
  {
    if ParsesFully(g, root, statement, fuel) {
      AcceptedIsDerived(g, root, statement, fuel);
    }
    if t :| Fits(g, root, t) && Yield(t) == statement {
      assert statement[0..|statement|] == statement;
      DerivedIsMatched(g, table, statement, root, START, |statement|, t, fuel);
    }
  }

  // ----- two grammars ---------------------------------------------------------------------------------------

  function TwoWordsTable(): Table {
    Table([false, false, false, false, true, false],
          (m, w) => (m <= 2 && CIEquals("a", w)) || ((m <= 1 || m == 3) && CIEquals("b", w)) || (m >= 4 && CIEquals("c", w)),
          (m, w) => 1 <= m <= 3 && CIEquals("c", w))
  }

  lemma DifferentWords(w: string)
    ensures CIEquals("a", w) ==> !CIEquals("b", w) && !CIEquals("c", w)
    ensures CIEquals("b", w) ==> !CIEquals("c", w)
  {
    assert CIEquals("a", w) ==> ToLower("a"[0]) == ToLower(w[0]);
    assert CIEquals("b", w) ==> ToLower("b"[0]) == ToLower(w[0]);
    assert CIEquals("c", w) ==> ToLower("c"[0]) == ToLower(w[0]);
  }

  /** The graph of ('a' / 'b') 'c'?. */
  ghost predicate IsTwoWords(g: Graph) {
    |g| == 6 && g[0] == List([1, 4]) && g[1] == Choice([2, 3]) && g[2] == Leaf(Keyword("a")) && g[3] == Leaf(Keyword("b")) &&
    g[4] == Optional(5) && g[5] == Leaf(Keyword("c"))
  }

  lemma TwoWordsIsClosed(g: Graph)
    requires IsTwoWords(g)
    ensures Closed(g)
  {
    assert RefersInto(g[0], 6) && RefersInto(g[1], 6) && RefersInto(g[2], 6);
    assert RefersInto(g[3], 6) && RefersInto(g[4], 6) && RefersInto(g[5], 6);
  }

  lemma TwoWordsDecide(g: Graph, m: nat, w: string)
    requires IsTwoWords(g) && Closed(g) && m < |g|
    ensures TokenDecides(g, TwoWordsTable(), m, w)
  {
    DifferentWords(w);
    var table := TwoWordsTable();
    if m == 0 {
      var cs := [1, 4];
      assert g[m] == List(cs) && !table.empty[cs[0]];
      assert forall k :: 0 <= k < |cs| && ComesAfter(table, m, cs, k, w) ==> table.follow(cs[k], w);
    }
  }

  lemma TwoWordsSkip(g: Graph)
    requires IsTwoWords(g) && Closed(g)
    ensures SkipsFrom(g, [1, 4], 1)
  {
    assert [1, 4][1..] == [4] && Unfolded(g, [4]) == [];
    assert IsWalk(g, [4], [4]) && CanSkip(g, [4], Cursor(0, {}, []));
  }

  lemma TwoWordsEnd(g: Graph, m: nat)
    requires IsTwoWords(g) && Closed(g) && m < |g|
    ensures EmptyAtEnd(g, TwoWordsTable(), m)
  {
    if m == 0 {
      var table, cs := TwoWordsTable(), [1, 4];
      forall k | 0 <= k < 2 && AllEmpty(table, cs, k, 2)
        ensures SkipsFrom(g, cs, k)
      {
        assert !table.empty[cs[0]];
        TwoWordsSkip(g);
      }
    }
  }

  lemma TwoWordsEmpties(g: Graph)
    requires IsTwoWords(g) && Closed(g)
    ensures Empties(g, TwoWordsTable().empty)
  {
    var cs, alternatives := [1, 4], [2, 3];
    assert cs[0] == 1;
    assert forall i :: 0 <= i < 2 ==> alternatives[i] == 2 || alternatives[i] == 3;
  }

  /** In this grammar the next token decides. */
  lemma TwoWordsArePredictive(g: Graph)
    requires IsTwoWords(g)
    ensures Closed(g) && Predictive(g, TwoWordsTable())
  {
    TwoWordsIsClosed(g);
    TwoWordsEmpties(g);
    forall m: nat | m < |g|
      ensures EmptyAtEnd(g, TwoWordsTable(), m)
    {
      TwoWordsEnd(g, m);
    }
    forall m: nat, w: string | m < |g|
      ensures TokenDecides(g, TwoWordsTable(), m, w)
    {
      TwoWordsDecide(g, m, w);
    }
  }

  /** In the grammar 'a' / 'a' 'b' it does not: the first alternative is kept, and `a b` is derived but not accepted. */
  lemma FirstAlternativeIsKept(fuel: nat)
    requires fuel >= 3
    ensures var g := [Choice([1, 2]), Leaf(Keyword("a")), List([1, 3]), Leaf(Keyword("b"))];
            Closed(g) && Derives(g, 0, ["a", "b"]) && !ParsesFully(g, 0, ["a", "b"], fuel)
  {
    var g := [Choice([1, 2]), Leaf(Keyword("a")), List([1, 3]), Leaf(Keyword("b"))];
    assert RefersInto(g[0], 4) && RefersInto(g[1], 4) && RefersInto(g[2], 4) && RefersInto(g[3], 4);
    AcceptsItself("a");
    SecondIsDerived(g);
    var tokens := ["a", "b"];
    assert [1, 2][0] == 1 && START.(added := {}) == START;
    assert Run(g, tokens, 1, START, fuel - 1) == Matched(Cursor(1, {}, []));
    assert RunChoice(g, tokens, [1, 2], START, fuel - 1) == Matched(Cursor(1, {}, []));
  }

  lemma SecondIsDerived(g: Graph)
    requires |g| == 4 && Closed(g) && g[0] == Choice([1, 2]) && g[1] == Leaf(Keyword("a")) && g[2] == List([1, 3])
    requires g[3] == Leaf(Keyword("b"))
    ensures Derives(g, 0, ["a", "b"])
  {
    AcceptsItself("a");
    AcceptsItself("b");
    var a, b := Token("a"), Token("b");
    YieldOne(b);
    YieldCons(a, [b]);
    assert [a] + [b] == [a, b];
    var both := Node([a, b]);
    YieldOne(both);
    assert Fits(g, 1, a) && Fits(g, 3, b);
    assert Fits(g, 2, both) && Yield(both) == ["a", "b"];
    assert [1, 2][1] == 2;
    assert Fits(g, 0, Node([both])) && Yield(Node([both])) == ["a", "b"];
  }
}
