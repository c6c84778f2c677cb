/** Reading a grammar from text: the cursor loop of `ParseRules`, the function it computes, and
    the round trip with printing. The text is a C string: it ends at its terminator. */
module PegGrammarText {
  import opened Common
  import opened PegPattern

  type Rules = map<string, Rule>

  predicate IsAlphaNumeric(c: char) {
    'A' <= c <= 'Z' || 'a' <= c <= 'z' || '0' <= c <= '9'
  }

  predicate IsPegOperator(c: char) {
    c == '/' || c == '?' || c == '(' || c == ')' || c == '*' || c == '!'
  }

  const PAST_END := "undefined: reads past the terminator"

  // ----- scanning -----------------------------------------------------------------------------------------

  /** First position from `c` on that is not alpha-numeric. */
  function AlphaNumericEnd(g: string, c: nat): (e: nat)
    requires c <= |g|
    ensures c <= e <= |g|
    decreases |g| - c
  {
    if c < |g| && IsAlphaNumeric(g[c]) then AlphaNumericEnd(g, c + 1) else c
  }

  /** First newline from `c` on, or the end. */
  function LineEnd(g: string, c: nat): (e: nat)
    requires c <= |g|
    ensures c <= e <= |g|
    decreases |g| - c
  {
    if c < |g| && !IsNewline(g[c]) then LineEnd(g, c + 1) else c
  }

  /** First unescaped quote from `c` on, or past it: an escape skips the next character even if
      that is the terminator. */
  function LiteralEnd(g: string, c: nat): (e: nat)
    ensures c <= e <= |g| + 1 || e == c
    decreases |g| - c
  {
    if c >= |g| || g[c] == '\'' then c
    else if g[c] == '\\' then LiteralEnd(g, c + 2)
    else LiteralEnd(g, c + 1)
  }

  /** First unescaped `final` from `c` on, or the end. */
  function RegexEnd(g: string, c: nat, final: char): (e: nat)
    requires c <= |g|
    ensures c <= e <= |g|
    decreases |g| - c
  {
    if c >= |g| || g[c] == final then c
    else if g[c] == '\\' then (if c + 1 < |g| then RegexEnd(g, c + 2, final) else |g|)
    else RegexEnd(g, c + 1, final)
  }

  /** The backslashes in a row right before `i`. */
  function Backslashes(g: string, i: nat): nat
    requires i <= |g|
  {
    if i > 0 && g[i - 1] == '\\' then 1 + Backslashes(g, i - 1) else 0
  }

  /** An odd number of backslashes: the last one is an escape of what follows. */
  predicate Escaped(g: string, i: nat)
    requires i <= |g|
  {
    Backslashes(g, i) % 2 == 1
  }

  // ----- one step of the loop -----------------------------------------------------------------------------

  datatype ParseState = RULE_NAME | RULE_SEPARATOR | RULE_DEFINITION

  datatype Cursor = Cursor(pos: nat, state: ParseState, rules: Rules, name: string, rule: Rule, brackets: nat, inOr: bool)

  const EMPTY_RULE := Rule([], [])

  const START := Cursor(0, RULE_NAME, map[], "", EMPTY_RULE, 0, false)

  function AddRule(rules: Rules, name: string, rule: Rule): Result<Rules> {
    if name in rules then Err("duplicate rule name") else Ok(rules[name := rule])
  }

  datatype Scanned = Scanned(token: PegToken, end: nat)

  /** The token of a rule definition at `c`. */
  function ScanToken(g: string, c: nat): (r: Result<Scanned>)
    requires c < |g|
    ensures r.Ok? ==> c < r.value.end <= |g|
  {
    if g[c] == '\'' then
      var e := LiteralEnd(g, c + 1);
      if e > |g| then Err(PAST_END)
      else if e == |g| then Err("did not find closing '")
      else Ok(Scanned(Literal(g[c + 1..e]), if e + 1 < |g| && g[e + 1] == 'i' then e + 2 else e + 1))
    else if IsAlphaNumeric(g[c]) then
      var e := AlphaNumericEnd(g, c + 1);
      if e < |g| && g[e] == '(' then Ok(Scanned(FunctionCall(g[c..e]), e + 1))
      else Ok(Scanned(Reference(g[c..e]), e))
    else if g[c] == '[' || g[c] == '<' then
      var e := RegexEnd(g, c, if g[c] == '[' then ']' else '>');
      if e == |g| then Err(PAST_END) else Ok(Scanned(Regex(g[c..e + 1]), e + 1))
    else if IsPegOperator(g[c]) then Ok(Scanned(Operator(g[c]), c + 1))
    else Err("unrecognized rule contents")
  }

  lemma {:induction false} LiteralEndIsUnescaped(g: string, c: nat)
    requires c <= |g| && !Escaped(g, c)
    ensures var e := LiteralEnd(g, c);
            (forall i :: c <= i < |g| && i < e && g[i] == '\'' ==> Escaped(g, i)) &&
            (e < |g| ==> g[e] == '\'' && !Escaped(g, e)) && (e >= |g| ==> (e > |g| <==> Escaped(g, |g|)))
    decreases |g| - c
  {
    if c < |g| && g[c] != '\'' {
      assert Escaped(g, c + 1) <==> g[c] == '\\';
      if g[c] != '\\' {
        LiteralEndIsUnescaped(g, c + 1);
      } else if c + 1 < |g| {
        LiteralEndIsUnescaped(g, c + 2);
      }
    }
  }

  lemma {:induction false} RegexEndIsUnescaped(g: string, c: nat, final: char)
    requires c <= |g| && !Escaped(g, c) && final != '\\'
    ensures var e := RegexEnd(g, c, final);
            (forall i :: c <= i < e && g[i] == final ==> Escaped(g, i)) && (e < |g| ==> g[e] == final && !Escaped(g, e))
    decreases |g| - c
  {
    if c < |g| && g[c] != final {
      assert Escaped(g, c + 1) <==> g[c] == '\\';
      if g[c] != '\\' {
        RegexEndIsUnescaped(g, c + 1, final);
      } else if c + 1 < |g| {
        RegexEndIsUnescaped(g, c + 2, final);
      }
    }
  }

  /** A literal without closing quote that ends in an escape, or a regular expression without its closing
      character. */
  predicate Unterminated(g: string, c: nat)
    requires c < |g|
  {
    (g[c] == '\'' && Escaped(g, |g|) && forall i :: c < i < |g| && g[i] == '\'' ==> Escaped(g, i)) ||
    (g[c] == '[' && forall i :: c < i < |g| && g[i] == ']' ==> Escaped(g, i)) ||
    (g[c] == '<' && forall i :: c < i < |g| && g[i] == '>' ==> Escaped(g, i))
  }

  /** Exactly then the reader runs past the end of the text. */
  lemma ReadsPastTheEndIff(g: string, c: nat)
    requires c < |g|
    ensures ScanToken(g, c) == Err(PAST_END) <==> Unterminated(g, c)
  {
    if g[c] == '\'' {
      LiteralEndIsUnescaped(g, c + 1);
    } else if g[c] == '[' || g[c] == '<' {
      RegexEndIsUnescaped(g, c + 1, if g[c] == '[' then ']' else '>');
    }
  }

  predicate Opens(token: PegToken) {
    token.FunctionCall? || token == Operator('(')
  }

  function AddToken(s: Cursor, scanned: Scanned): Result<Cursor> {
    var token := scanned.token;
    if token == Operator(')') && s.brackets == 0 then Err("unclosed bracket")
    else
      var brackets := if Opens(token) then s.brackets + 1 else if token == Operator(')') then s.brackets - 1 else s.brackets;
      Ok(s.(pos := scanned.end, rule := s.rule.(tokens := s.rule.tokens + [token]), brackets := brackets,
            inOr := token == Operator('/')))
  }

  function StepName(g: string, s: Cursor): (r: Result<Cursor>)
    requires s.pos < |g|
    ensures r.Ok? ==> s.pos < r.value.pos <= |g|
  {
    var e := AlphaNumericEnd(g, if g[s.pos] == '%' then s.pos + 1 else s.pos);
    if e == s.pos then Err("expected an alpha-numeric rule name")
    else Ok(s.(pos := e, state := RULE_SEPARATOR, name := g[s.pos..e], rule := EMPTY_RULE))
  }

  function StepSeparator(g: string, s: Cursor): (r: Result<Cursor>)
    requires s.pos < |g|
    ensures r.Ok? ==> s.pos < r.value.pos <= |g|
  {
    var c := s.pos;
    if g[c] == '(' then
      if s.rule.parameters != [] then Err("multiple parameters")
      else
        var e := AlphaNumericEnd(g, c + 1);
        if e == c + 1 then Err("expected a parameter")
        else if e == |g| || g[e] != ')' then Err("expected closing bracket")
        else Ok(s.(pos := e + 1, rule := s.rule.(parameters := [g[c + 1..e]])))
    else if g[c] != '<' || c + 1 == |g| || g[c + 1] != '-' then Err("expected a rule definition (<-)")
    else Ok(s.(pos := c + 2, state := RULE_DEFINITION))
  }

  function StepDefinition(g: string, s: Cursor): (r: Result<Cursor>)
    requires s.pos < |g|
    ensures r.Ok? ==> s.pos < r.value.pos <= |g|
  {
    match ScanToken(g, s.pos)
    case Err(message) => Err(message)
    case Ok(scanned) => AddToken(s, scanned)
  }

  /** A newline ends a definition unless a bracket or a choice is open. */
  predicate EndsRule(g: string, s: Cursor)
    requires s.pos < |g|
  {
    s.state == RULE_DEFINITION && IsNewline(g[s.pos]) && s.brackets == 0 && !s.inOr && s.rule.tokens != []
  }

  function StepText(g: string, s: Cursor): (r: Result<Cursor>)
    requires s.pos < |g|
    ensures r.Ok? ==> s.pos < r.value.pos <= |g|
  {
    if g[s.pos] == '#' then Ok(s.(pos := LineEnd(g, s.pos + 1)))
    else if EndsRule(g, s) then
      match AddRule(s.rules, s.name, s.rule)
      case Err(message) => Err(message)
      case Ok(rules) => Ok(s.(pos := s.pos + 1, state := RULE_NAME, rules := rules, name := "", rule := EMPTY_RULE))
    else if IsSpace(g[s.pos]) then Ok(s.(pos := s.pos + 1))
    else
      match s.state
      case RULE_NAME => StepName(g, s)
      case RULE_SEPARATOR => StepSeparator(g, s)
      case RULE_DEFINITION => StepDefinition(g, s)
  }

  function Finish(s: Cursor): Result<Rules> {
    match s.state
    case RULE_NAME => Ok(s.rules)
    case RULE_SEPARATOR => Err("rule does not have a definition")
    case RULE_DEFINITION => if s.rule.tokens == [] then Err("rule is empty") else AddRule(s.rules, s.name, s.rule)
  }

  /** The rules read from the rest of the text. */
  function Parse(g: string, s: Cursor): Result<Rules>
    requires s.pos <= |g|
    decreases |g| - s.pos
  {
    if s.pos == |g| then Finish(s)
    else
      match StepText(g, s)
      case Ok(next) => Parse(g, next)
      case Err(message) => Err(message)
  }

  /** From a state the same is read as from the next state. */
  ghost predicate Follows(g: string, parse: Cursor -> Result<Rules>) {
    forall s: Cursor {:trigger StepText(g, s)} :: s.pos < |g| ==>
      parse(s) == if StepText(g, s).Ok? then parse(StepText(g, s).value) else Err(StepText(g, s).message)
  }

  lemma OneStep(g: string, parse: Cursor -> Result<Rules>, s: Cursor, next: Cursor)
    requires Follows(g, parse)
    requires s.pos < |g| && StepText(g, s) == Ok(next)
    ensures next.pos <= |g| && parse(s) == parse(next)
  {
  }

  /** `Parse` as a value, so that it is taken step by step. */
  function ParseFrom(g: string): Cursor -> Result<Rules> {
    (s: Cursor) => if s.pos <= |g| then Parse(g, s) else Err("")
  }

  lemma ParseFollows(g: string)
    ensures Follows(g, ParseFrom(g)) && ParseFrom(g)(START) == Parse(g, START)
    ensures forall end: Cursor :: end.pos == |g| ==> ParseFrom(g)(end) == Finish(end)
  {
    forall s: Cursor | s.pos < |g|
      ensures ParseFrom(g)(s) == if StepText(g, s).Ok? then ParseFrom(g)(StepText(g, s).value) else Err(StepText(g, s).message)
    {
      ParseStep(g, s);
    }
  }

  lemma ParseStep(g: string, s: Cursor)
    requires s.pos < |g|
    ensures Parse(g, s) == if StepText(g, s).Ok? then Parse(g, StepText(g, s).value) else Err(StepText(g, s).message)
  {
  }

  /** A rule without further tokens is read past the end, if its token is unterminated. */
  lemma ReadsPastTheEnd(g: string, parse: Cursor -> Result<Rules>)
    requires Follows(g, parse)
    requires |g| > 3 && g[0] == 'a' && g[1] == '<' && g[2] == '-' && Unterminated(g, 3)
    ensures parse(START) == Err(PAST_END)
  {
    assert AlphaNumericEnd(g, 0) == AlphaNumericEnd(g, 1) == 1;
    var named := START.(pos := 1, state := RULE_SEPARATOR, name := g[0..1]);
    var defining := named.(pos := 3, state := RULE_DEFINITION);
    assert StepText(g, START) == Ok(named);
    assert StepText(g, named) == Ok(defining);
    ReadsPastTheEndIff(g, 3);
    assert StepText(g, defining) == Err(PAST_END);
  }

  /** A grammar that ends within an escape, and one that ends within a character class. */
  lemma GrammarsReadPastTheEnd()
    ensures Parse("a<-'\\", START) == Err(PAST_END) && Parse("a<-[", START) == Err(PAST_END)
  {
    var escape, unclosed := "a<-'\\", "a<-[";
    assert |escape| == 5 && escape[3] == '\'' && escape[4] == '\\';
    assert Backslashes(escape, 4) == 0 && Backslashes(escape, 5) == 1;
    assert |unclosed| == 4 && unclosed[3] == '[';
    ParseFollows(escape);
    ReadsPastTheEnd(escape, ParseFrom(escape));
    ParseFollows(unclosed);
    ReadsPastTheEnd(unclosed, ParseFrom(unclosed));
  }

  // ----- the loop -------------------------------------------------------------------------------------------

  class PEGParser {
    var rules: Rules

    constructor ()
      ensures rules == map[]
    {
      rules := map[];
    }

    method Insert(name: string, rule: Rule) returns (error: Option<string>)
      modifies this
      ensures match AddRule(old(rules), name, rule)
              case Ok(added) => error.None? && rules == added
              case Err(message) => error == Some(message)
    {
      if name in rules {
        return Some("duplicate rule name");
      }
      rules := rules[name := rule];
      error := None;
    }

    method ParseRules(grammar: string) returns (error: Option<string>)
      requires rules == map[]
      modifies this
      ensures match Parse(grammar, START)
              case Ok(read) => error.None? && rules == read
              case Err(message) => error == Some(message)
    {
      var ruleName, rule, parseState, bracketCount, inOrClause := "", EMPTY_RULE, RULE_NAME, 0 as nat, false;
      var c: nat := 0;
      ghost var parse := ParseFrom(grammar);
      ParseFollows(grammar);
      while c < |grammar|
        invariant c <= |grammar|
        invariant parse(START) == parse(Cursor(c, parseState, rules, ruleName, rule, bracketCount, inOrClause))
      {
        ghost var s := Cursor(c, parseState, rules, ruleName, rule, bracketCount, inOrClause);
        if grammar[c] == '#' {
          // a comment runs to the end of its line
          c := SkipLine(grammar, c + 1);
        } else if parseState == RULE_DEFINITION && IsNewline(grammar[c]) && bracketCount == 0 && !inOrClause &&
                  rule.tokens != [] {
          error := Insert(ruleName, rule);
          if error.Some? {
            return;
          }
          ruleName, rule, parseState := "", EMPTY_RULE, RULE_NAME;
          c := c + 1;
        } else if IsSpace(grammar[c]) {
          c := c + 1;
        } else {
          var next := ParseNext(grammar, Cursor(c, parseState, rules, ruleName, rule, bracketCount, inOrClause));
          if next.Err? {
            return Some(next.message);
          }
          c, parseState, ruleName, rule := next.value.pos, next.value.state, next.value.name, next.value.rule;
          bracketCount, inOrClause := next.value.brackets, next.value.inOr;
        }
        OneStep(grammar, parse, s, Cursor(c, parseState, rules, ruleName, rule, bracketCount, inOrClause));
      }
      error := FinishRules(ruleName, rule, parseState);
    }

    /** The end of the text closes the last rule. */
    method FinishRules(ruleName: string, rule: Rule, parseState: ParseState) returns (error: Option<string>)
      modifies this
      ensures forall s: Cursor {:trigger Finish(s)} ::
                s.state == parseState && s.rules == old(rules) && s.name == ruleName && s.rule == rule ==>
                match Finish(s)
                case Ok(read) => error.None? && rules == read
                case Err(message) => error == Some(message)
    {
      if parseState == RULE_SEPARATOR {
        return Some("rule does not have a definition");
      }
      error := None;
      if parseState == RULE_DEFINITION {
        if rule.tokens == [] {
          return Some("rule is empty");
        }
        error := Insert(ruleName, rule);
      }
    }
  }

  /** Reads on in the state of the cursor. */
  method ParseNext(grammar: string, s: Cursor) returns (r: Result<Cursor>)
    requires s.pos < |grammar|
    ensures r == match s.state
                 case RULE_NAME => StepName(grammar, s)
                 case RULE_SEPARATOR => StepSeparator(grammar, s)
                 case RULE_DEFINITION => StepDefinition(grammar, s)
  {
    var c := s.pos;
    match s.state {
      case RULE_NAME =>
        var end := SkipAlphaNumeric(grammar, if grammar[c] == '%' then c + 1 else c);
        if end == c {
          return Err("expected an alpha-numeric rule name");
        }
        r := Ok(s.(pos := end, state := RULE_SEPARATOR, name := grammar[c..end], rule := EMPTY_RULE));
      case RULE_SEPARATOR =>
        r := ParseSeparator(grammar, s);
      case RULE_DEFINITION =>
        r := ParseToken(grammar, s);
    }
  }

  /** A parameter or the arrow. */
  method ParseSeparator(grammar: string, s: Cursor) returns (r: Result<Cursor>)
    requires s.pos < |grammar|
    ensures r == StepSeparator(grammar, s)
  {
    var c := s.pos;
    if grammar[c] == '(' {
      if s.rule.parameters != [] {
        return Err("multiple parameters");
      }
      var end := SkipAlphaNumeric(grammar, c + 1);
      if end == c + 1 {
        return Err("expected a parameter");
      }
      if end == |grammar| || grammar[end] != ')' {
        return Err("expected closing bracket");
      }
      r := Ok(s.(pos := end + 1, rule := s.rule.(parameters := [grammar[c + 1..end]])));
    } else {
      if grammar[c] != '<' || c + 1 == |grammar| || grammar[c + 1] != '-' {
        return Err("expected a rule definition (<-)");
      }
      r := Ok(s.(pos := c + 2, state := RULE_DEFINITION));
    }
  }

  /** A token of the definition, with the count of open brackets. */
  method ParseToken(grammar: string, s: Cursor) returns (r: Result<Cursor>)
    requires s.pos < |grammar|
    ensures r == StepDefinition(grammar, s)
  {
    var scanned := ReadToken(grammar, s.pos);
    if scanned.Err? {
      return Err(scanned.message);
    }
    var token, bracketCount := scanned.value.token, s.brackets;
    var inOrClause := false;
    if token.FunctionCall? || token == Operator('(') {
      bracketCount := bracketCount + 1;
    } else if token == Operator(')') {
      if bracketCount == 0 {
        return Err("unclosed bracket");
      }
      bracketCount := bracketCount - 1;
    } else if token == Operator('/') {
      inOrClause := true;
    }
    var rule := s.rule.(tokens := s.rule.tokens + [token]);
    r := Ok(s.(pos := scanned.value.end, rule := rule, brackets := bracketCount, inOr := inOrClause));
  }

  method SkipLine(g: string, from: nat) returns (c: nat)
    requires from <= |g|
    ensures c == LineEnd(g, from)
  {
    c := from;
    while c < |g| && !IsNewline(g[c])
      invariant from <= c <= |g| && LineEnd(g, from) == LineEnd(g, c)
    {
      c := c + 1;
    }
  }

  method SkipAlphaNumeric(g: string, from: nat) returns (c: nat)
    requires from <= |g|
    ensures c == AlphaNumericEnd(g, from)
  {
    c := from;
    while c < |g| && IsAlphaNumeric(g[c])
      invariant from <= c <= |g| && AlphaNumericEnd(g, from) == AlphaNumericEnd(g, c)
    {
      c := c + 1;
    }
  }

  method ReadToken(g: string, start: nat) returns (r: Result<Scanned>)
    requires start < |g|
    ensures r == ScanToken(g, start)
  {
    var c := start;
    if g[c] == '\'' {
      c := c + 1;
      while c < |g| && g[c] != '\''
        invariant LiteralEnd(g, start + 1) == LiteralEnd(g, c)
        invariant start < c <= |g| + 1
        decreases |g| - c
      {
        if g[c] == '\\' {
          c := c + 1;
        }
        c := c + 1;
      }
      if c > |g| {
        return Err(PAST_END);
      }
      if c == |g| {
        return Err("did not find closing '");
      }
      var token := Literal(g[start + 1..c]);
      c := c + 1;
      if c < |g| && g[c] == 'i' {
        // the marker of a literal in either case
        c := c + 1;
      }
      r := Ok(Scanned(token, c));
    } else if IsAlphaNumeric(g[c]) {
      c := SkipAlphaNumeric(g, c + 1);
      if c < |g| && g[c] == '(' {
        r := Ok(Scanned(FunctionCall(g[start..c]), c + 1));
      } else {
        r := Ok(Scanned(Reference(g[start..c]), c));
      }
    } else if g[c] == '[' || g[c] == '<' {
      var final := if g[c] == '[' then ']' else '>';
      while c < |g| && g[c] != final
        invariant start <= c <= |g| && RegexEnd(g, start, final) == RegexEnd(g, c, final)
        decreases |g| - c
      {
        if g[c] == '\\' {
          c := c + 1;
        }
        if c < |g| {
          c := c + 1;
        }
      }
      if c == |g| {
        return Err(PAST_END);
      }
      r := Ok(Scanned(Regex(g[start..c + 1]), c + 1));
    } else if IsPegOperator(g[c]) {
      r := Ok(Scanned(Operator(g[c]), c + 1));
    } else {
      r := Err("unrecognized rule contents");
    }
  }
}
