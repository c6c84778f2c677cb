/** Grammars with one-parameter rules: what a call means, and the parse trees of a pattern. */
module PegExpansion {
  import opened Common
  import opened PegMatcher
  import opened PegSoundness
  import opened PegPattern

  /** `terminals` are the rules implemented by built-in matchers. `rank` witnesses that rules do
      not call each other in a circle (references may). */
  datatype Grammar = Grammar(rules: map<string, Rule>, terminals: map<string, Terminal>, rank: map<string, nat>)

  /** The argument of the enclosing call. */
  datatype Binding = Binding(parameter: string, argument: Pattern)

  /** An argument of one item is that item, otherwise it is a list. */
  function Wrap(items: seq<Pattern>): Pattern {
    if |items| == 1 then items[0] else PGroup(items)
  }

  predicate Callable(G: Grammar, name: string, level: nat) {
    name in G.rules && |G.rules[name].parameters| == 1 && Body(G.rules[name]).Ok? &&
    name in G.rank && G.rank[name] < level
  }

  /** `p` with its calls replaced by the called bodies and the parameter by the argument. In a
      called body only the parameter of that rule is bound. */
  function Expand(G: Grammar, p: Pattern, env: Option<Binding>, level: nat): Pattern
    decreases level, p
  {
    match p
    case PKeyword(_) => p
    case PReference(name) => if env.Some? && env.value.parameter == name then env.value.argument else p
    case PGroup(items) => PGroup(ExpandAll(G, items, env, level))
    case POptional(q) => POptional(Expand(G, q, env, level))
    case PRepeat(q) => PRepeat(Expand(G, q, env, level))
    case PChoice(ps) => PChoice(ExpandAll(G, ps, env, level))
    case PCall(name, items) =>
      var argument := Wrap(ExpandAll(G, items, env, level));
      if Callable(G, name, level) then
        var rule := G.rules[name];
        PGroup(ExpandAll(G, Body(rule).value, Some(Binding(rule.parameters[0], argument)), G.rank[name]))
      else PGroup([])
  }

  function ExpandAll(G: Grammar, ps: seq<Pattern>, env: Option<Binding>, level: nat): (r: seq<Pattern>)
    ensures |r| == |ps|
    ensures forall i :: 0 <= i < |ps| ==> r[i] == Expand(G, ps[i], env, level)
    decreases level, ps, 0
  {
    seq(|ps|, i requires 0 <= i < |ps| => Expand(G, ps[i], env, level))
  }

  /** The items of the plain rule `name`. */
  function RuleItems(G: Grammar, name: string): seq<Pattern> {
    if name in G.rules && Body(G.rules[name]).Ok? && name in G.rank
    then ExpandAll(G, Body(G.rules[name]).value, None, G.rank[name])
    else []
  }

  // ----- parse trees of expanded patterns ---------------------------------------------------------

  ghost predicate PatternFits(G: Grammar, p: Pattern, t: Tree)
    decreases t, if p.PReference? then 1 else 0
  {
    match p
    case PKeyword(text) => t.Token? && CIEquals(text, t.text)
    case PReference(name) =>
      if name in G.terminals then t.Token? && Accepts(G.terminals[name], t.text)
      else name in G.rules && PatternFits(G, PGroup(RuleItems(G, name)), t)
    case PGroup(items) =>
      t.Node? && |t.children| == |items| &&
      forall i :: 0 <= i < |items| ==> PatternFits(G, items[i], t.children[i])
    case POptional(q) =>
      t.Node? && |t.children| <= 1 && forall i :: 0 <= i < |t.children| ==> PatternFits(G, q, t.children[i])
    case PRepeat(q) =>
      t.Node? && |t.children| >= 1 && forall i :: 0 <= i < |t.children| ==> PatternFits(G, q, t.children[i])
    case PChoice(ps) =>
      t.Node? && |t.children| == 1 && exists i :: 0 <= i < |ps| && PatternFits(G, ps[i], t.children[0])
    case PCall(_, _) => false
  }

  ghost predicate Generates(G: Grammar, p: Pattern, s: seq<string>) {
    exists t :: PatternFits(G, p, t) && Yield(t) == s
  }

  /** Every sequence generated by `a` is generated by `b`. */
  ghost predicate Includes(G: Grammar, b: Pattern, a: Pattern) {
    forall s :: Generates(G, a, s) ==> Generates(G, b, s)
  }

  // ----- substitution ---------------------------------------------------------------------------------

  predicate CallFree(p: Pattern)
    decreases p
  {
    match p
    case PKeyword(_) => true
    case PReference(_) => true
    case PGroup(items) => CallFreeAll(items)
    case POptional(q) => CallFree(q)
    case PRepeat(q) => CallFree(q)
    case PChoice(ps) => CallFreeAll(ps)
    case PCall(_, _) => false
  }

  predicate CallFreeAll(ps: seq<Pattern>)
    decreases ps, 0
  {
    forall i :: 0 <= i < |ps| ==> CallFree(ps[i])
  }

  /** Textual replacement of the references to `x`. */
  function Subst(p: Pattern, x: string, a: Pattern): Pattern
    decreases p
  {
    match p
    case PKeyword(_) => p
    case PReference(name) => if name == x then a else p
    case PGroup(items) => PGroup(SubstAll(items, x, a))
    case POptional(q) => POptional(Subst(q, x, a))
    case PRepeat(q) => PRepeat(Subst(q, x, a))
    case PChoice(ps) => PChoice(SubstAll(ps, x, a))
    case PCall(name, items) => PCall(name, SubstAll(items, x, a))
  }

  function SubstAll(ps: seq<Pattern>, x: string, a: Pattern): (r: seq<Pattern>)
    ensures |r| == |ps|
    ensures forall i :: 0 <= i < |ps| ==> r[i] == Subst(ps[i], x, a)
    decreases ps, 0
  {
    seq(|ps|, i requires 0 <= i < |ps| => Subst(ps[i], x, a))
  }

  lemma {:induction false} CallFreeIsExpanded(G: Grammar, p: Pattern, level: nat)
    requires CallFree(p)
    ensures Expand(G, p, None, level) == p
    decreases p
  {
    match p
    case PKeyword(_) =>
    case PReference(_) =>
    case PGroup(items) => CallFreeAllIsExpanded(G, items, level);
    case POptional(q) => CallFreeIsExpanded(G, q, level);
    case PRepeat(q) => CallFreeIsExpanded(G, q, level);
    case PChoice(ps) => CallFreeAllIsExpanded(G, ps, level);
  }

  lemma {:induction false} CallFreeAllIsExpanded(G: Grammar, ps: seq<Pattern>, level: nat)
    requires CallFreeAll(ps)
    ensures ExpandAll(G, ps, None, level) == ps
    decreases ps, 0
  {
    forall i | 0 <= i < |ps|
      ensures Expand(G, ps[i], None, level) == ps[i]
    {
      CallFreeIsExpanded(G, ps[i], level);
    }
  }

  lemma {:induction false} ExpandIsCallFree(G: Grammar, p: Pattern, env: Option<Binding>, level: nat)
    requires env.Some? ==> CallFree(env.value.argument)
    ensures CallFree(Expand(G, p, env, level))
    decreases level, p
  {
    match p
    case PKeyword(_) =>
    case PReference(_) =>
    case PGroup(items) => ExpandAllIsCallFree(G, items, env, level);
    case POptional(q) => ExpandIsCallFree(G, q, env, level);
    case PRepeat(q) => ExpandIsCallFree(G, q, env, level);
    case PChoice(ps) => ExpandAllIsCallFree(G, ps, env, level);
    case PCall(name, items) =>
      ExpandAllIsCallFree(G, items, env, level);
      if Callable(G, name, level) {
        var rule := G.rules[name];
        var argument := Wrap(ExpandAll(G, items, env, level));
        ExpandAllIsCallFree(G, Body(rule).value, Some(Binding(rule.parameters[0], argument)), G.rank[name]);
      }
  }

  lemma {:induction false} ExpandAllIsCallFree(G: Grammar, ps: seq<Pattern>, env: Option<Binding>, level: nat)
    requires env.Some? ==> CallFree(env.value.argument)
    ensures CallFreeAll(ExpandAll(G, ps, env, level))
    decreases level, ps, 0
  {
    forall i | 0 <= i < |ps|
      ensures CallFree(Expand(G, ps[i], env, level))
    {
      ExpandIsCallFree(G, ps[i], env, level);
    }
  }

  /** Binding a parameter is the same as replacing it in the text. The bodies of rules called or
      referenced from `p` are not touched, even where they mention a rule named `x`. */
  lemma {:induction false} BindingIsSubstitution(G: Grammar, p: Pattern, x: string, a: Pattern, level: nat)
    requires CallFree(a)
    ensures Expand(G, p, Some(Binding(x, a)), level) == Expand(G, Subst(p, x, a), None, level)
    decreases p
  {
    match p
    case PKeyword(_) =>
    case PReference(name) => CallFreeIsExpanded(G, a, level);
    case PGroup(items) => BindingIsSubstitutionAll(G, items, x, a, level);
    case POptional(q) => BindingIsSubstitution(G, q, x, a, level);
    case PRepeat(q) => BindingIsSubstitution(G, q, x, a, level);
    case PChoice(ps) => BindingIsSubstitutionAll(G, ps, x, a, level);
    case PCall(_, items) => BindingIsSubstitutionAll(G, items, x, a, level);
  }

  lemma {:induction false} BindingIsSubstitutionAll(G: Grammar, ps: seq<Pattern>, x: string, a: Pattern, level: nat)
    requires CallFree(a)
    ensures ExpandAll(G, ps, Some(Binding(x, a)), level) == ExpandAll(G, SubstAll(ps, x, a), None, level)
    decreases ps, 0
  {
    forall i | 0 <= i < |ps|
      ensures Expand(G, ps[i], Some(Binding(x, a)), level) == Expand(G, Subst(ps[i], x, a), None, level)
    {
      BindingIsSubstitution(G, ps[i], x, a, level);
    }
  }

  // ----- arguments with the same language are interchangeable ---------------------------------------

  /** A tree under argument `a` becomes a tree of the same tokens under argument `b`. */
  lemma {:induction false} Rebind(G: Grammar, p: Pattern, x: string, a: Pattern, b: Pattern, level: nat, t: Tree)
    returns (u: Tree)
    requires Includes(G, b, a)
    requires PatternFits(G, Expand(G, p, Some(Binding(x, a)), level), t)
    ensures PatternFits(G, Expand(G, p, Some(Binding(x, b)), level), u) && Yield(u) == Yield(t)
    decreases level, p, 0
  {
    u := t;
    match p
    case PKeyword(_) =>
    case PReference(name) =>
      if name == x {
        assert Generates(G, a, Yield(t));
        u :| PatternFits(G, b, u) && Yield(u) == Yield(t);
      }
    case PGroup(items) =>
      var us := RebindAll(G, items, x, a, b, level, t.children);
      u := Node(us);
    case POptional(q) =>
      var us := RebindEach(G, q, x, a, b, level, t.children);
      u := Node(us);
    case PRepeat(q) =>
      var us := RebindEach(G, q, x, a, b, level, t.children);
      u := Node(us);
    case PChoice(ps) =>
      var i :| 0 <= i < |ps| && PatternFits(G, Expand(G, ps[i], Some(Binding(x, a)), level), t.children[0]);
      var v := Rebind(G, ps[i], x, a, b, level, t.children[0]);
      YieldOne(v);
      YieldOne(t.children[0]);
      assert t.children == [t.children[0]];
      u := Node([v]);
      assert PatternFits(G, ExpandAll(G, ps, Some(Binding(x, b)), level)[i], u.children[0]);
    case PCall(name, items) =>
      if Callable(G, name, level) {
        var rule := G.rules[name];
        var env, env' := Some(Binding(x, a)), Some(Binding(x, b));
        var arg, arg' := Wrap(ExpandAll(G, items, env, level)), Wrap(ExpandAll(G, items, env', level));
        RebindArgument(G, items, x, a, b, level);
        var us := RebindAll(G, Body(rule).value, rule.parameters[0], arg, arg', G.rank[name], t.children);
        u := Node(us);
      }
  }

  lemma {:induction false} RebindArgument(G: Grammar, items: seq<Pattern>, x: string, a: Pattern, b: Pattern, level: nat)
    requires Includes(G, b, a)
    ensures Includes(G, Wrap(ExpandAll(G, items, Some(Binding(x, b)), level)),
                     Wrap(ExpandAll(G, items, Some(Binding(x, a)), level)))
    decreases level, items, 1
  {
    var arg, arg' := Wrap(ExpandAll(G, items, Some(Binding(x, a)), level)),
                     Wrap(ExpandAll(G, items, Some(Binding(x, b)), level));
    forall s | Generates(G, arg, s)
      ensures Generates(G, arg', s)
    {
      var t :| PatternFits(G, arg, t) && Yield(t) == s;
      var u: Tree;
      if |items| == 1 {
        u := Rebind(G, items[0], x, a, b, level, t);
      } else {
        var us := RebindAll(G, items, x, a, b, level, t.children);
        u := Node(us);
      }
      assert PatternFits(G, arg', u) && Yield(u) == s;
    }
  }

  lemma {:induction false} RebindAll(G: Grammar, ps: seq<Pattern>, x: string, a: Pattern, b: Pattern, level: nat,
                                     ts: seq<Tree>) returns (us: seq<Tree>)
    requires Includes(G, b, a) && |ts| == |ps|
    requires forall i :: 0 <= i < |ps| ==> PatternFits(G, Expand(G, ps[i], Some(Binding(x, a)), level), ts[i])
    ensures |us| == |ps| && YieldAll(us) == YieldAll(ts)
    ensures forall i :: 0 <= i < |ps| ==> PatternFits(G, Expand(G, ps[i], Some(Binding(x, b)), level), us[i])
    decreases level, ps, 0
  {
    us := [];
    if ps != [] {
      var u := Rebind(G, ps[0], x, a, b, level, ts[0]);
      var rest := RebindAll(G, ps[1..], x, a, b, level, ts[1..]);
      YieldCons(u, rest);
      us := [u] + rest;
      forall i | 0 <= i < |ps|
        ensures PatternFits(G, Expand(G, ps[i], Some(Binding(x, b)), level), us[i])
      {
        assert i > 0 ==> ps[i] == ps[1..][i - 1];
      }
    }
  }

  lemma {:induction false} RebindEach(G: Grammar, q: Pattern, x: string, a: Pattern, b: Pattern, level: nat,
                                      ts: seq<Tree>) returns (us: seq<Tree>)
    requires Includes(G, b, a)
    requires forall i :: 0 <= i < |ts| ==> PatternFits(G, Expand(G, q, Some(Binding(x, a)), level), ts[i])
    ensures |us| == |ts| && YieldAll(us) == YieldAll(ts)
    ensures forall i :: 0 <= i < |us| ==> PatternFits(G, Expand(G, q, Some(Binding(x, b)), level), us[i])
    decreases level, q, 1, ts
  {
    us := [];
    if ts != [] {
      var u := Rebind(G, q, x, a, b, level, ts[0]);
      var rest := RebindEach(G, q, x, a, b, level, ts[1..]);
      YieldCons(u, rest);
      us := [u] + rest;
    }
  }

  lemma WrapIsGroup(G: Grammar, items: seq<Pattern>)
    ensures Includes(G, PGroup(items), Wrap(items)) && Includes(G, Wrap(items), PGroup(items))
  {
    if |items| == 1 {
      forall s | Generates(G, items[0], s)
        ensures Generates(G, PGroup(items), s)
      {
        var t :| PatternFits(G, items[0], t) && Yield(t) == s;
        YieldOne(t);
        assert PatternFits(G, PGroup(items), Node([t])) && Yield(Node([t])) == s;
      }
      forall s | Generates(G, PGroup(items), s)
        ensures Generates(G, items[0], s)
      {
        var t :| PatternFits(G, PGroup(items), t) && Yield(t) == s;
        assert t.children == [t.children[0]];
        YieldOne(t.children[0]);
      }
    }
  }

  /** A call recognises what the body of the called rule recognises once its parameter is
      replaced by the bracketed argument. */
  lemma CallIsSubstitution(G: Grammar, name: string, items: seq<Pattern>, env: Option<Binding>, level: nat, s: seq<string>)
    requires Callable(G, name, level) && (env.Some? ==> CallFree(env.value.argument))
    ensures var rule := G.rules[name];
            var bracket := PGroup(ExpandAll(G, items, env, level));
            var body := SubstAll(Body(rule).value, rule.parameters[0], bracket);
            Generates(G, Expand(G, PCall(name, items), env, level), s)
            <==> Generates(G, PGroup(ExpandAll(G, body, None, G.rank[name])), s)
  {
    var rule := G.rules[name];
    var x, args := rule.parameters[0], ExpandAll(G, items, env, level);
    var body := Body(rule).value;
    ExpandAllIsCallFree(G, items, env, level);
    BindingIsSubstitutionAll(G, body, x, PGroup(args), G.rank[name]);
    WrapIsGroup(G, args);
    Replace(G, body, x, Wrap(args), PGroup(args), G.rank[name], s);
    Replace(G, body, x, PGroup(args), Wrap(args), G.rank[name], s);
  }

  lemma Replace(G: Grammar, body: seq<Pattern>, x: string, a: Pattern, b: Pattern, level: nat, s: seq<string>)
    requires Includes(G, b, a)
    ensures Generates(G, PGroup(ExpandAll(G, body, Some(Binding(x, a)), level)), s)
            ==> Generates(G, PGroup(ExpandAll(G, body, Some(Binding(x, b)), level)), s)
  {
    var p, q := PGroup(ExpandAll(G, body, Some(Binding(x, a)), level)),
                PGroup(ExpandAll(G, body, Some(Binding(x, b)), level));
    if Generates(G, p, s) {
      var t :| PatternFits(G, p, t) && Yield(t) == s;
      var us := RebindAll(G, body, x, a, b, level, t.children);
      assert PatternFits(G, q, Node(us)) && Yield(Node(us)) == s;
    }
  }
}
