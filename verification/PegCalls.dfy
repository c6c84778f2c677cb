/** Macros that call each other: for which rule sets and roots there are the ranks that the compilation needs. */
module PegCalls {
  import opened PegMatcher
  import opened PegPattern
  import opened PegExpansion
  import opened PegFactory

  /** The definition of `a` calls the macro `b`. */
  predicate Calls(rules: map<string, Rule>, a: string, b: string) {
    a in rules && IsMacro(rules, b) && FunctionCall(b) in rules[a].tokens
  }

  /** Each name but the last one calls the next one. */
  ghost predicate CallPath(rules: map<string, Rule>, names: seq<string>) {
    forall i :: 0 <= i < |names| - 1 ==> Calls(rules, names[i], names[i + 1])
  }

  ghost predicate Circle(rules: map<string, Rule>, names: seq<string>) {
    |names| >= 2 && CallPath(rules, names) && names[0] == names[|names| - 1]
  }

  /** The definition of `a` calls `b` or refers to it. */
  predicate Uses(rules: map<string, Rule>, terminals: map<string, Terminal>, a: string, b: string) {
    Calls(rules, a, b) ||
    (a in rules && IsPlain(rules, terminals, b) && b !in rules[a].parameters && Reference(b) in rules[a].tokens)
  }

  /** A way from the first name to the last one. */
  ghost predicate UsePath(rules: map<string, Rule>, terminals: map<string, Terminal>, names: seq<string>) {
    names != [] && forall i :: 0 <= i < |names| - 1 ==> Uses(rules, terminals, names[i], names[i + 1])
  }

  ghost predicate Reaches(rules: map<string, Rule>, terminals: map<string, Terminal>, a: string, b: string) {
    exists names :: UsePath(rules, terminals, names) && names[0] == a && names[|names| - 1] == b
  }

  /** What a ranked rule uses is ranked, and lower if it is called. */
  lemma UsedIsRanked(G: Grammar, a: string, b: string)
    requires CallsDescend(G) && a in G.rank && Uses(G.rules, G.terminals, a, b)
    ensures b in G.rank && (Calls(G.rules, a, b) ==> G.rank[b] < G.rank[a])
  {
    var tokens := G.rules[a].tokens;
    if Calls(G.rules, a, b) {
      var i :| 0 <= i < |tokens| && tokens[i] == FunctionCall(b);
      assert TokenBelow(G, G.rules[a], tokens[i], G.rank[a]);
    } else {
      var i :| 0 <= i < |tokens| && tokens[i] == Reference(b);
      assert TokenBelow(G, G.rules[a], tokens[i], G.rank[a]);
    }
  }

  lemma {:induction false} ReachedIsRanked(G: Grammar, names: seq<string>, i: nat)
    requires CallsDescend(G) && UsePath(G.rules, G.terminals, names) && names[0] in G.rank && i < |names|
    ensures names[i] in G.rank
  {
    if i > 0 {
      ReachedIsRanked(G, names, i - 1);
      assert Uses(G.rules, G.terminals, names[i - 1], names[i]);
      UsedIsRanked(G, names[i - 1], names[i]);
    }
  }

  /** Along a path of calls the ranks fall. */
  lemma {:induction false} RanksFall(G: Grammar, names: seq<string>, i: nat)
    requires CallsDescend(G) && CallPath(G.rules, names) && 0 < i < |names| && names[0] in G.rank
    ensures names[i] in G.rank && G.rank[names[i]] < G.rank[names[0]]
  {
    if i > 1 {
      RanksFall(G, names, i - 1);
    }
    assert Calls(G.rules, names[i - 1], names[i]);
    UsedIsRanked(G, names[i - 1], names[i]);
  }

  // ----- a path that is long enough closes a circle -----------------------------------------------------------

  lemma {:induction false} AtMost(names: seq<string>, all: set<string>)
    requires (forall i :: 0 <= i < |names| ==> names[i] in all) && forall i, j :: 0 <= i < j < |names| ==> names[i] != names[j]
    ensures |names| <= |all|
  {
    if names != [] {
      AtMost(names[1..], all - {names[0]});
    }
  }

  lemma LongPathHasCircle(rules: map<string, Rule>, names: seq<string>)
    requires CallPath(rules, names) && (forall i :: 0 <= i < |names| ==> names[i] in rules) && |names| > |rules.Keys|
    ensures exists circle :: Circle(rules, circle)
  {
    if forall i, j :: 0 <= i < j < |names| ==> names[i] != names[j] {
      AtMost(names, rules.Keys);
    } else {
      var i, j :| 0 <= i < j < |names| && names[i] == names[j];
      var circle := names[i..j + 1];
      assert forall k :: 0 <= k < |circle| ==> circle[k] == names[i + k];
      assert Circle(rules, circle);
    }
  }

  ghost predicate UsesOneOf(rules: map<string, Rule>, a: string, rest: set<string>) {
    exists b {:trigger Calls(rules, a, b)} :: b in rest && Calls(rules, a, b)
  }

  lemma OneStepFurther(rules: map<string, Rule>, names: seq<string>, b: string)
    requires names != [] && CallPath(rules, names) && Calls(rules, names[|names| - 1], b)
    ensures CallPath(rules, names + [b])
  {
    var further := names + [b];
    forall i | 0 <= i < |further| - 1
      ensures Calls(rules, further[i], further[i + 1])
    {
      if i < |names| - 1 {
        assert Calls(rules, names[i], names[i + 1]);
      }
    }
  }

  /** Where every name has a use within `rest`, there are paths of any length. */
  lemma {:induction false} Walk(rules: map<string, Rule>, rest: set<string>, n: nat) returns (names: seq<string>)
    requires rest != {} && forall a :: a in rest ==> UsesOneOf(rules, a, rest)
    ensures |names| == n + 1 && CallPath(rules, names) && forall i :: 0 <= i < |names| ==> names[i] in rest
  {
    if n == 0 {
      var a :| a in rest;
      names := [a];
    } else {
      var start := Walk(rules, rest, n - 1);
      var b :| b in rest && Calls(rules, start[n - 1], b);
      OneStepFurther(rules, start, b);
      names := start + [b];
    }
  }

  /** Without a circle some name of `rest` uses none of `rest`. */
  lemma LastInLine(rules: map<string, Rule>, rest: set<string>) returns (a: string)
    requires rest != {} && rest <= rules.Keys && !exists circle :: Circle(rules, circle)
    ensures a in rest && !UsesOneOf(rules, a, rest)
  {
    if forall a :: a in rest ==> UsesOneOf(rules, a, rest) {
      var names := Walk(rules, rest, |rules.Keys|);
      LongPathHasCircle(rules, names);
    }
    a :| a in rest && !UsesOneOf(rules, a, rest);
  }

  // ----- ranks ----------------------------------------------------------------------------------------------

  /** The names in `rank` use only each other, and only such of lower rank. */
  ghost predicate RanksBegun(rules: map<string, Rule>, rank: map<string, nat>) {
    rank.Keys <= rules.Keys && (forall a :: a in rank ==> rank[a] < |rank|) &&
    forall a, b {:trigger Calls(rules, a, b)} :: a in rank && Calls(rules, a, b) ==> b in rank && rank[b] < rank[a]
  }

  /** What is ranked next is above everything ranked so far. */
  lemma RankNext(rules: map<string, Rule>, begun: map<string, nat>, a: string)
    requires RanksBegun(rules, begun) && a in rules && a !in begun && !UsesOneOf(rules, a, rules.Keys - begun.Keys)
    ensures RanksBegun(rules, begun[a := |begun|])
  {
    var next := begun[a := |begun|];
    forall x, y | x in next && Calls(rules, x, y)
      ensures y in next && next[y] < next[x]
    {
      assert y in rules.Keys - begun.Keys || y in begun;
      if x != a {
        assert y in begun && begun[y] < begun[x];
      }
    }
  }

  lemma {:induction false} Ranks(rules: map<string, Rule>, begun: map<string, nat>) returns (rank: map<string, nat>)
    requires !exists circle :: Circle(rules, circle)
    requires RanksBegun(rules, begun)
    ensures RanksBegun(rules, rank) && rank.Keys == rules.Keys
    decreases |rules.Keys - begun.Keys|
  {
    var rest := rules.Keys - begun.Keys;
    if rest == {} {
      return begun;
    }
    var a := LastInLine(rules, rest);
    RankNext(rules, begun, a);
    assert rules.Keys - begun[a := |begun|].Keys == rest - {a};
    rank := Ranks(rules, begun[a := |begun|]);
  }

  /** A macro that is reached from the root and calls itself, directly or through others. */
  ghost predicate ReachesCircle(rules: map<string, Rule>, terminals: map<string, Terminal>, root: string) {
    IsPlain(rules, terminals, root) &&
    exists circle :: Circle(rules, circle) && Reaches(rules, terminals, root, circle[0])
  }

  /** The rules that the root reaches. */
  ghost function Reached(rules: map<string, Rule>, terminals: map<string, Terminal>, root: string): map<string, Rule> {
    map n | n in rules && Reaches(rules, terminals, root, n) :: rules[n]
  }

  lemma ReachesItself(rules: map<string, Rule>, terminals: map<string, Terminal>, root: string)
    ensures Reaches(rules, terminals, root, root)
  {
    assert UsePath(rules, terminals, [root]);
  }

  lemma ReachesFurther(rules: map<string, Rule>, terminals: map<string, Terminal>, root: string, a: string, b: string)
    requires Reaches(rules, terminals, root, a) && Uses(rules, terminals, a, b)
    ensures Reaches(rules, terminals, root, b)
  {
    var names :| UsePath(rules, terminals, names) && names[0] == root && names[|names| - 1] == a;
    var further := names + [b];
    forall i | 0 <= i < |further| - 1
      ensures Uses(rules, terminals, further[i], further[i + 1])
    {
      if i < |names| - 1 {
        assert Uses(rules, terminals, names[i], names[i + 1]);
      }
    }
    assert UsePath(rules, terminals, further) && further[0] == root && further[|further| - 1] == b;
  }

  /** A circle among the rules that are reached is a circle that is reached. */
  lemma CircleIsReached(rules: map<string, Rule>, terminals: map<string, Terminal>, root: string, circle: seq<string>)
    requires Circle(Reached(rules, terminals, root), circle)
    ensures Circle(rules, circle) && Reaches(rules, terminals, root, circle[0])
  {
    forall i | 0 <= i < |circle| - 1
      ensures Calls(rules, circle[i], circle[i + 1]) && Reaches(rules, terminals, root, circle[i])
    {
      assert Calls(Reached(rules, terminals, root), circle[i], circle[i + 1]);
    }
  }

  lemma RanksDescend(rules: map<string, Rule>, terminals: map<string, Terminal>, root: string, rank: map<string, nat>)
    requires var reached := Reached(rules, terminals, root); RanksBegun(reached, rank) && rank.Keys == reached.Keys
    ensures CallsDescend(Grammar(rules, terminals, rank))
  {
    var G, reached := Grammar(rules, terminals, rank), Reached(rules, terminals, root);
    forall name, i | name in rules && name in rank && 0 <= i < |rules[name].tokens|
      ensures TokenBelow(G, rules[name], rules[name].tokens[i], rank[name])
    {
      var token := rules[name].tokens[i];
      if token.FunctionCall? && IsMacro(rules, token.name) {
        assert token == FunctionCall(token.name) && Calls(rules, name, token.name);
        ReachesFurther(rules, terminals, root, name, token.name);
        assert Calls(reached, name, token.name);
      } else if token.Reference? && token.name !in rules[name].parameters && IsPlain(rules, terminals, token.name) {
        assert token == Reference(token.name) && Uses(rules, terminals, name, token.name);
        ReachesFurther(rules, terminals, root, name, token.name);
      }
    }
  }

  /** There are ranks for a root exactly if no macro that it reaches calls itself, directly or through others. */
  lemma RanksIffNoCircle(rules: map<string, Rule>, terminals: map<string, Terminal>, root: string)
    ensures (exists rank :: var G := Grammar(rules, terminals, rank); CallsDescend(G) && RuleRanked(G, root)) <==>
            !ReachesCircle(rules, terminals, root)
  {
    if ReachesCircle(rules, terminals, root) {
      forall rank
        ensures var G := Grammar(rules, terminals, rank); !(CallsDescend(G) && RuleRanked(G, root))
      {
        CircleHasNoRank(rules, terminals, root, rank);
      }
    } else if IsPlain(rules, terminals, root) {
      var rank := RanksOfReached(rules, terminals, root);
      assert CallsDescend(Grammar(rules, terminals, rank)) && RuleRanked(Grammar(rules, terminals, rank), root);
    } else {
      assert CallsDescend(Grammar(rules, terminals, map[])) && RuleRanked(Grammar(rules, terminals, map[]), root);
    }
  }

  lemma CircleHasNoRank(rules: map<string, Rule>, terminals: map<string, Terminal>, root: string, rank: map<string, nat>)
    requires ReachesCircle(rules, terminals, root)
    ensures var G := Grammar(rules, terminals, rank); !(CallsDescend(G) && RuleRanked(G, root))
  {
    var G := Grammar(rules, terminals, rank);
    if CallsDescend(G) && RuleRanked(G, root) {
      var circle :| Circle(rules, circle) && Reaches(rules, terminals, root, circle[0]);
      var names :| UsePath(rules, terminals, names) && names[0] == root && names[|names| - 1] == circle[0];
      ReachedIsRanked(G, names, |names| - 1);
      RanksFall(G, circle, |circle| - 1);
    }
  }

  lemma RanksOfReached(rules: map<string, Rule>, terminals: map<string, Terminal>, root: string) returns (rank: map<string, nat>)
    requires IsPlain(rules, terminals, root) && !ReachesCircle(rules, terminals, root)
    ensures CallsDescend(Grammar(rules, terminals, rank)) && root in rank
  {
    var reached := Reached(rules, terminals, root);
    forall circle
      ensures !Circle(reached, circle)
    {
      if Circle(reached, circle) {
        CircleIsReached(rules, terminals, root, circle);
      }
    }
    rank := Ranks(reached, map[]);
    RanksDescend(rules, terminals, root, rank);
    ReachesItself(rules, terminals, root);
  }

  const RECURSIVE := Rule(["X"], [FunctionCall("M"), Reference("X"), Operator(')')])

  /** A macro that passes its parameter to itself is no obstacle, unless the root reaches it. */
  lemma RecursiveMacroHasNoRank(terminals: map<string, Terminal>, rank: map<string, nat>)
    requires "S" !in terminals
    ensures var rules := map["M" := RECURSIVE, "S" := Rule([], [FunctionCall("M"), Literal("a"), Operator(')')])];
            var G := Grammar(rules, terminals, rank);
            !(CallsDescend(G) && RuleRanked(G, "S"))
    ensures var G := Grammar(map["M" := RECURSIVE, "S" := Rule([], [Literal("a")])], terminals, map["S" := 0]);
            CallsDescend(G) && RuleRanked(G, "S")
  {
    var rules := map["M" := RECURSIVE, "S" := Rule([], [FunctionCall("M"), Literal("a"), Operator(')')])];
    assert FunctionCall("M") == rules["M"].tokens[0] && FunctionCall("M") == rules["S"].tokens[0];
    assert Circle(rules, ["M", "M"]);
    ReachesItself(rules, terminals, "S");
    ReachesFurther(rules, terminals, "S", "S", "M");
    assert ["M", "M"][0] == "M";
    CircleHasNoRank(rules, terminals, "S", rank);
  }
}
