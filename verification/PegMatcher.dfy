/** The PEG recogniser of the autocomplete extension.

    Matchers refer to each other by reference and may form cycles, so they live in a graph:
    a matcher is an index into it. `Match` advances a mutable `MatchState`; `Run` is the
    function it computes, and the lemmas below relate `Run` to parse trees. */
module PegMatcher {
  import opened Common

  // ----- matchers ---------------------------------------------------------------------------

  datatype Suggestion = Candidate(keyword: string) | Category(state: string)

  /** A matcher that looks at one token. */
  datatype Terminal =
    | Keyword(text: string)
    | TokenClass(accepts: string -> bool, suggestion: Option<Suggestion>)

  datatype Matcher =
    | Leaf(terminal: Terminal)
    | List(children: seq<nat>)
    | Optional(child: nat)
    | Choice(children: seq<nat>)
    | Repeat(child: nat)

  type Graph = seq<Matcher>

  datatype MatchResult = SUCCESS | FAIL
  datatype SuggestionType = OPTIONAL | MANDATORY

  function ToLower(c: char): char {
    if 'A' <= c <= 'Z' then ((c as int) + 32) as char else c
  }

  predicate CIEquals(a: string, b: string) {
    |a| == |b| && forall i :: 0 <= i < |a| ==> ToLower(a[i]) == ToLower(b[i])
  }

  predicate Accepts(terminal: Terminal, token: string) {
    match terminal
    case Keyword(text) => CIEquals(text, token)
    case TokenClass(accepts, _) => accepts(token)
  }

  function Emits(terminal: Terminal): seq<Suggestion> {
    match terminal
    case Keyword(text) => [Candidate(text)]
    case TokenClass(_, None) => []
    case TokenClass(_, Some(suggestion)) => [suggestion]
  }

  predicate RefersInto(node: Matcher, n: nat) {
    match node
    case Leaf(_) => true
    case List(cs) => forall i :: 0 <= i < |cs| ==> cs[i] < n
    case Choice(cs) => forall i :: 0 <= i < |cs| ==> cs[i] < n
    case Optional(x) => x < n
    case Repeat(x) => x < n
  }

  /** Every reference stays inside the graph. Nothing excludes cycles. */
  predicate Closed(g: Graph) {
    forall m :: 0 <= m < |g| ==> RefersInto(g[m], |g|)
  }

  /** `ms` are matchers of `g`. */
  predicate Within(g: Graph, ms: seq<nat>) {
    forall i :: 0 <= i < |ms| ==> ms[i] < |g|
  }

  // ----- the function computed by AddSuggestion -----------------------------------------------

  /** What a match state holds: the next token, the matchers it already expanded into
      suggestions, and the (shared) list of suggestions. */
  datatype Cursor = Cursor(index: nat, added: set<nat>, emitted: seq<Suggestion>)

  predicate Extends(before: Cursor, after: Cursor) {
    after.index == before.index && before.added <= after.added && before.emitted <= after.emitted
  }

  ghost function Unexpanded(g: Graph, added: set<nat>): set<nat> {
    set m: nat | m < |g| && m !in added
  }

  ghost function Suggest(g: Graph, m: nat, c: Cursor): (r: (SuggestionType, Cursor))
    requires Closed(g) && m < |g|
    ensures Extends(c, r.1) && m in r.1.added
    decreases Unexpanded(g, c.added), 0, 0
  {
    if m in c.added then (MANDATORY, c)
    else
      assert m in Unexpanded(g, c.added) && m !in Unexpanded(g, c.added + {m});
      SuggestInternal(g, m, c.(added := c.added + {m}))
  }

  ghost function SuggestInternal(g: Graph, m: nat, c: Cursor): (r: (SuggestionType, Cursor))
    requires Closed(g) && m < |g|
    ensures Extends(c, r.1)
    decreases Unexpanded(g, c.added), 2, 0
  {
    assert RefersInto(g[m], |g|);
    match g[m]
    case Leaf(t) => (MANDATORY, c.(emitted := c.emitted + Emits(t)))
    case List(cs) => SuggestList(g, cs, c)
    case Optional(x) => (OPTIONAL, Suggest(g, x, c).1)
    case Choice(cs) => (MANDATORY, SuggestEach(g, cs, c))
    case Repeat(x) => (MANDATORY, Suggest(g, x, c).1)
  }

  /** Suggests for the children in order, up to the first mandatory one. */
  ghost function SuggestList(g: Graph, cs: seq<nat>, c: Cursor): (r: (SuggestionType, Cursor))
    requires Closed(g) && Within(g, cs)
    ensures Extends(c, r.1)
    decreases Unexpanded(g, c.added), 1, |cs|
  {
    if cs == [] then (OPTIONAL, c)
    else
      var (t, a) := Suggest(g, cs[0], c);
      if t == MANDATORY then (MANDATORY, a) else SuggestList(g, cs[1..], a)
  }

  ghost function SuggestEach(g: Graph, cs: seq<nat>, c: Cursor): (r: Cursor)
    requires Closed(g) && Within(g, cs)
    ensures Extends(c, r)
    decreases Unexpanded(g, c.added), 1, |cs|
  {
    if cs == [] then c else SuggestEach(g, cs[1..], Suggest(g, cs[0], c).1)
  }

  // ----- the function computed by Match ---------------------------------------------------------

  /** `Stuck` means that `fuel` ran out before the run ended. What a failed match leaves in its state does not
      influence the rest of the run; its token index is named in the error of a rejected statement (`LeftAtEnd`). */
  datatype Outcome = Matched(after: Cursor) | Failed(emitted: seq<Suggestion>) | Stuck

  /** A matcher reads the current token unless it is a list, which checks for the end itself. */
  predicate Ready(g: Graph, tokens: seq<string>, m: nat, index: nat) {
    m < |g| && (index < |tokens| || g[m].List?)
  }

  ghost function Run(g: Graph, tokens: seq<string>, m: nat, c: Cursor, fuel: nat): Outcome
    requires Closed(g) && Ready(g, tokens, m, c.index)
    decreases fuel, 0
  {
    if fuel == 0 then Stuck
    else
      assert RefersInto(g[m], |g|);
      match g[m]
      case Leaf(t) =>
        if Accepts(t, tokens[c.index]) then Matched(c.(index := c.index + 1)) else Failed(c.emitted)
      case List(cs) =>
        (match RunList(g, tokens, cs, c.(added := {}), fuel - 1)
         case Matched(a) => Matched(a.(added := c.added))
         case other => other)
      case Optional(x) =>
        (match Run(g, tokens, x, c.(added := {}), fuel - 1)
         case Matched(a) => Matched(a.(added := c.added))
         case Failed(emitted) => Matched(c.(emitted := emitted))
         case Stuck => Stuck)
      case Choice(cs) => RunChoice(g, tokens, cs, c, fuel - 1)
      case Repeat(x) =>
        (match Run(g, tokens, x, c.(added := {}), fuel - 1)
         case Matched(a) => RunRepeat(g, tokens, x, c.added, a, fuel - 1)
         case other => other)
  }

  ghost function RunList(g: Graph, tokens: seq<string>, cs: seq<nat>, c: Cursor, fuel: nat): Outcome
    requires Closed(g) && Within(g, cs)
    decreases fuel, 1 + |cs|
  {
    if cs == [] then Matched(c)
    else if c.index >= |tokens| then
      var (t, a) := SuggestList(g, cs, c);
      if t == OPTIONAL then Matched(a) else Failed(a.emitted)
    else
      match Run(g, tokens, cs[0], c, fuel)
      case Matched(a) => RunList(g, tokens, cs[1..], a, fuel)
      case other => other
  }

  /** The children that match use up the tokens, and some are left. */
  ghost predicate Exhausted(g: Graph, tokens: seq<string>, cs: seq<nat>, c: Cursor, fuel: nat)
    requires Closed(g) && Within(g, cs)
    decreases |cs|
  {
    cs != [] &&
    (c.index >= |tokens| ||
     var first := Run(g, tokens, cs[0], c, fuel);
     first.Matched? && Exhausted(g, tokens, cs[1..], first.after, fuel))
  }

  /** If the match fails, it leaves the token index at the end. */
  ghost predicate LeftAtEnd(g: Graph, tokens: seq<string>, m: nat, c: Cursor, fuel: nat)
    requires Closed(g) && m < |g|
  {
    fuel > 0 && g[m].List? && assert RefersInto(g[m], |g|); Exhausted(g, tokens, g[m].children, c.(added := {}), fuel - 1)
  }

  ghost function RunChoice(g: Graph, tokens: seq<string>, cs: seq<nat>, c: Cursor, fuel: nat): Outcome
    requires Closed(g) && Within(g, cs) && c.index < |tokens|
    decreases fuel, 1 + |cs|
  {
    if cs == [] then Failed(c.emitted)
    else
      match Run(g, tokens, cs[0], c.(added := {}), fuel)
      case Matched(a) => Matched(a.(added := c.added))
      case Failed(emitted) => RunChoice(g, tokens, cs[1..], c.(emitted := emitted), fuel)
      case Stuck => Stuck
  }

  /** `r` is the state of the repetition after the element matched at least once; `added` is
      the expansion set of the state the repetition was started in. */
  ghost function RunRepeat(g: Graph, tokens: seq<string>, x: nat, added: set<nat>, r: Cursor, fuel: nat): Outcome
    requires Closed(g) && x < |g|
    decreases fuel, 1
  {
    if r.index >= |tokens| then Matched(Suggest(g, x, r.(added := added)).1)
    else if fuel == 0 then Stuck
    else
      match Run(g, tokens, x, r, fuel - 1)
      case Matched(a) => RunRepeat(g, tokens, x, added, a, fuel - 1)
      case Failed(emitted) => Matched(Cursor(r.index, added, emitted))
      case Stuck => Stuck
  }

  // ----- the recogniser -------------------------------------------------------------------------

  class SuggestionBuffer {
    var items: seq<Suggestion>

    constructor ()
      ensures items == []
    {
      items := [];
    }
  }

  class MatchState {
    const tokens: seq<string>
    const suggestions: SuggestionBuffer
    var tokenIndex: nat
    var added: set<nat>

    constructor (tokens: seq<string>, suggestions: SuggestionBuffer)
      ensures this.tokens == tokens && this.suggestions == suggestions
      ensures tokenIndex == 0 && added == {}
    {
      this.tokens, this.suggestions := tokens, suggestions;
      tokenIndex, added := 0, {};
    }

    /** A copy shares the tokens and the suggestions but starts with nothing expanded. */
    constructor CopyOf(other: MatchState)
      ensures tokens == other.tokens && suggestions == other.suggestions
      ensures tokenIndex == other.tokenIndex && added == {}
    {
      tokens, suggestions := other.tokens, other.suggestions;
      tokenIndex, added := other.tokenIndex, {};
    }

    ghost function View(): Cursor
      reads this, suggestions
    {
      Cursor(tokenIndex, added, suggestions.items)
    }
  }

  method AddSuggestion(g: Graph, m: nat, state: MatchState) returns (t: SuggestionType)
    requires Closed(g) && m < |g|
    modifies state, state.suggestions
    ensures (t, state.View()) == Suggest(g, m, old(state.View()))
    decreases Unexpanded(g, state.added), 0
  {
    if m in state.added {
      return MANDATORY;
    }
    assert m in Unexpanded(g, state.added) && m !in Unexpanded(g, state.added + {m});
    state.added := state.added + {m};
    t := AddSuggestionInternal(g, m, state);
  }

  method AddSuggestionInternal(g: Graph, m: nat, state: MatchState) returns (t: SuggestionType)
    requires Closed(g) && m < |g|
    modifies state, state.suggestions
    ensures (t, state.View()) == SuggestInternal(g, m, old(state.View()))
    decreases Unexpanded(g, state.added), 1
  {
    assert RefersInto(g[m], |g|);
    ghost var start := state.View();
    match g[m] {
      case Leaf(terminal) =>
        state.suggestions.items := state.suggestions.items + Emits(terminal);
        t := MANDATORY;
      case List(cs) =>
        for i := 0 to |cs|
          invariant start.added <= state.added
          invariant SuggestList(g, cs, start) == SuggestList(g, cs[i..], state.View())
        {
          t := AddSuggestion(g, cs[i], state);
          if t == MANDATORY {
            return;
          }
        }
        t := OPTIONAL;
      case Optional(x) =>
        t := AddSuggestion(g, x, state);
        t := OPTIONAL;
      case Choice(cs) =>
        for i := 0 to |cs|
          invariant start.added <= state.added
          invariant SuggestEach(g, cs, start) == SuggestEach(g, cs[i..], state.View())
        {
          t := AddSuggestion(g, cs[i], state);
        }
        t := MANDATORY;
      case Repeat(x) =>
        t := AddSuggestion(g, x, state);
        t := MANDATORY;
    }
  }

  /** Matches at the current token. `fuel` only says that the run ends. */
  method Match(g: Graph, m: nat, state: MatchState, ghost fuel: nat) returns (r: MatchResult)
    requires Closed(g) && Ready(g, state.tokens, m, state.tokenIndex)
    requires Run(g, state.tokens, m, state.View(), fuel) != Stuck
    modifies state, state.suggestions
    ensures var run := Run(g, state.tokens, m, old(state.View()), fuel);
            if r == SUCCESS then run == Matched(state.View()) else run == Failed(state.suggestions.items)
    ensures r == FAIL ==>
              if LeftAtEnd(g, state.tokens, m, old(state.View()), fuel) then state.tokenIndex >= |state.tokens|
              else state.tokenIndex == old(state.tokenIndex)
    decreases fuel, 0
  {
    assert RefersInto(g[m], |g|);
    match g[m] {
      case Leaf(terminal) =>
        if Accepts(terminal, state.tokens[state.tokenIndex]) {
          state.tokenIndex := state.tokenIndex + 1;
          r := SUCCESS;
        } else {
          r := FAIL;
        }
      case List(cs) => r := MatchList(g, cs, state, fuel - 1);
      case Optional(x) => r := MatchOptional(g, x, state, fuel - 1);
      case Choice(cs) => r := MatchChoice(g, cs, state, fuel - 1);
      case Repeat(x) => r := MatchRepeat(g, x, state, fuel - 1);
    }
  }

  method MatchList(g: Graph, cs: seq<nat>, state: MatchState, ghost fuel: nat) returns (r: MatchResult)
    requires Closed(g) && Within(g, cs)
    requires RunList(g, state.tokens, cs, state.View().(added := {}), fuel) != Stuck
    modifies state, state.suggestions
    ensures var run := RunList(g, state.tokens, cs, old(state.View()).(added := {}), fuel);
            if r == SUCCESS
            then run.Matched? && state.View() == run.after.(added := old(state.added))
            else run == Failed(state.suggestions.items)
    ensures r == FAIL ==>
              if Exhausted(g, state.tokens, cs, old(state.View()).(added := {}), fuel) then state.tokenIndex >= |state.tokens|
              else state.tokenIndex == old(state.tokenIndex)
    decreases fuel, 1
  {
    var listState := new MatchState.CopyOf(state);
    ghost var start := listState.View();
    var childIdx := 0;
    while childIdx < |cs|
      invariant childIdx <= |cs|
      invariant state.tokenIndex == old(state.tokenIndex) && state.added == old(state.added)
      invariant RunList(g, state.tokens, cs, start, fuel)
                == RunList(g, state.tokens, cs[childIdx..], listState.View(), fuel)
      invariant Exhausted(g, state.tokens, cs, start, fuel)
                == Exhausted(g, state.tokens, cs[childIdx..], listState.View(), fuel)
    {
      if listState.tokenIndex >= |listState.tokens| {
        // the tokens are exhausted: suggest for the remaining children
        ghost var rest, exhausted := cs[childIdx..], listState.View();
        ghost var from := childIdx;
        while childIdx < |cs|
          invariant from <= childIdx <= |cs|
          invariant state.tokenIndex == old(state.tokenIndex) && state.added == old(state.added)
          invariant listState.tokenIndex >= |listState.tokens|
          invariant SuggestList(g, rest, exhausted) == SuggestList(g, cs[childIdx..], listState.View())
        {
          var suggestionType := AddSuggestion(g, cs[childIdx], listState);
          if suggestionType == MANDATORY {
            break;
          }
          childIdx := childIdx + 1;
        }
        state.tokenIndex := listState.tokenIndex;
        if childIdx == |cs| {
          return SUCCESS;
        }
        return FAIL;
      }
      r := Match(g, cs[childIdx], listState, fuel);
      if r != SUCCESS {
        return;
      }
      childIdx := childIdx + 1;
    }
    state.tokenIndex := listState.tokenIndex;
    r := SUCCESS;
  }

  method MatchOptional(g: Graph, x: nat, state: MatchState, ghost fuel: nat) returns (r: MatchResult)
    requires Closed(g) && x < |g| && state.tokenIndex < |state.tokens|
    requires Run(g, state.tokens, x, state.View().(added := {}), fuel) != Stuck
    modifies state, state.suggestions
    ensures r == SUCCESS && state.added == old(state.added)
    ensures var run := Run(g, state.tokens, x, old(state.View()).(added := {}), fuel);
            if run.Matched?
            then state.View() == run.after.(added := state.added)
            else state.tokenIndex == old(state.tokenIndex) && run == Failed(state.suggestions.items)
    decreases fuel, 1
  {
    var childState := new MatchState.CopyOf(state);
    var childMatch := Match(g, x, childState, fuel);
    if childMatch == SUCCESS {
      state.tokenIndex := childState.tokenIndex;
    }
    r := SUCCESS;
  }

  method MatchChoice(g: Graph, cs: seq<nat>, state: MatchState, ghost fuel: nat) returns (r: MatchResult)
    requires Closed(g) && Within(g, cs) && state.tokenIndex < |state.tokens|
    requires RunChoice(g, state.tokens, cs, state.View(), fuel) != Stuck
    modifies state, state.suggestions
    ensures var run := RunChoice(g, state.tokens, cs, old(state.View()), fuel);
            if r == SUCCESS then run == Matched(state.View()) else run == Failed(state.suggestions.items)
    ensures r == FAIL ==> state.tokenIndex == old(state.tokenIndex)
    decreases fuel, 1
  {
    ghost var start := state.View();
    for i := 0 to |cs|
      invariant state.tokenIndex == start.index && state.added == start.added
      invariant RunChoice(g, state.tokens, cs, start, fuel)
                == RunChoice(g, state.tokens, cs[i..], state.View(), fuel)
    {
      var choiceState := new MatchState.CopyOf(state);
      var childResult := Match(g, cs[i], choiceState, fuel);
      if childResult != FAIL {
        state.tokenIndex := choiceState.tokenIndex;
        return childResult;
      }
    }
    r := FAIL;
  }

  method MatchRepeat(g: Graph, x: nat, state: MatchState, ghost fuel: nat) returns (r: MatchResult)
    requires Closed(g) && x < |g| && state.tokenIndex < |state.tokens|
    requires Run(g, state.tokens, x, state.View().(added := {}), fuel) != Stuck
    requires var first := Run(g, state.tokens, x, state.View().(added := {}), fuel);
             first.Matched? ==> RunRepeat(g, state.tokens, x, state.added, first.after, fuel) != Stuck
    modifies state, state.suggestions
    ensures var first := Run(g, state.tokens, x, old(state.View()).(added := {}), fuel);
            if r == SUCCESS
            then first.Matched? && RunRepeat(g, state.tokens, x, old(state.added), first.after, fuel)
                                   == Matched(state.View())
            else first == Failed(state.suggestions.items)
    ensures r == FAIL ==> state.tokenIndex == old(state.tokenIndex)
    decreases fuel, 1
  {
    var repeatState := new MatchState.CopyOf(state);
    r := Match(g, x, repeatState, fuel);
    if r != SUCCESS {
      return;
    }
    ghost var first := repeatState.View();
    ghost var left: nat := fuel;
    while true
      invariant state.added == old(state.added)
      invariant RunRepeat(g, state.tokens, x, state.added, first, fuel)
                == RunRepeat(g, state.tokens, x, state.added, repeatState.View(), left)
      invariant left <= fuel
      decreases left
    {
      state.tokenIndex := repeatState.tokenIndex;
      if repeatState.tokenIndex >= |state.tokens| {
        var suggestionType := AddSuggestion(g, x, state);
        return SUCCESS;
      }
      left := left - 1;
      var childMatch := Match(g, x, repeatState, left);
      if childMatch != SUCCESS {
        return SUCCESS;
      }
    }
  }

  // ----- checking a script ------------------------------------------------------------------------

  const START := Cursor(0, {}, [])

  /** The matcher consumes the whole statement. */
  ghost predicate ParsesFully(g: Graph, root: nat, statement: seq<string>, fuel: nat)
    requires Closed(g) && Ready(g, statement, root, 0)
  {
    var run := Run(g, statement, root, START, fuel);
    run.Matched? && run.after.index >= |statement|
  }

  /** Checks the non-empty statements in order; the result is the first one that is rejected, with the token that the
      error names. */
  method CheckStatements(g: Graph, root: nat, statements: seq<seq<string>>, ghost fuel: nat)
    returns (rejected: Option<nat>, tokenIndex: nat)
    requires Closed(g) && root < |g| && g[root].List?
    requires forall i :: 0 <= i < |statements| ==> Run(g, statements[i], root, START, fuel) != Stuck
    ensures rejected.None? ==>
              forall i :: 0 <= i < |statements| && statements[i] != [] ==> ParsesFully(g, root, statements[i], fuel)
    ensures rejected.Some? ==>
              var k := rejected.value;
              k < |statements| && statements[k] != [] && !ParsesFully(g, root, statements[k], fuel) &&
              forall i :: 0 <= i < k && statements[i] != [] ==> ParsesFully(g, root, statements[i], fuel)
    ensures rejected.Some? ==>
              var statement := statements[rejected.value];
              tokenIndex >= |statement| <==>
              Run(g, statement, root, START, fuel).Failed? && LeftAtEnd(g, statement, root, START, fuel)
  {
    tokenIndex := 0;
    for k := 0 to |statements|
      invariant forall i :: 0 <= i < k && statements[i] != [] ==> ParsesFully(g, root, statements[i], fuel)
    {
      if statements[k] != [] {
        var suggestions := new SuggestionBuffer();
        var state := new MatchState(statements[k], suggestions);
        var matchResult := Match(g, root, state, fuel);
        if matchResult != SUCCESS || state.tokenIndex < |statements[k]| {
          return Some(k), state.tokenIndex;
        }
      }
    }
    rejected := None;
  }
}
