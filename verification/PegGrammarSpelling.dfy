/** The spellings of a grammar: literals with and without their marker, and any white space, newlines and comments
    where they may stand. */
module PegGrammarSpelling {
  import opened Common
  import opened PegPattern
  import opened PegGrammarText

  // ----- well-formed rules -------------------------------------------------------------------------------

  predicate AlphaNumeric(s: string) {
    s != "" && forall i :: 0 <= i < |s| ==> IsAlphaNumeric(s[i])
  }

  /** No unescaped quote, no escape at the very end. */
  predicate LiteralOk(t: string) {
    t == "" ||
    if t[0] == '\\' then |t| >= 2 && LiteralOk(t[2..]) else t[0] != '\'' && LiteralOk(t[1..])
  }

  /** The text of a character class or of <...> after its first character. */
  predicate RegexOk(t: string, final: char) {
    t != "" &&
    if t[0] == final then |t| == 1
    else if t[0] == '\\' then |t| >= 2 && RegexOk(t[2..], final)
    else RegexOk(t[1..], final)
  }

  predicate TokenOk(t: PegToken) {
    match t
    case Literal(text) => LiteralOk(text)
    case Reference(name) => AlphaNumeric(name)
    case FunctionCall(name) => AlphaNumeric(name)
    case Operator(op) => IsPegOperator(op)
    case Regex(text) =>
      text != "" && ((text[0] == '[' && RegexOk(text[1..], ']')) || (text[0] == '<' && RegexOk(text[1..], '>')))
  }

  /** Open brackets after `ts`, if none is closed too early. */
  function Brackets(ts: seq<PegToken>, open: nat): Option<nat> {
    if ts == [] then Some(open)
    else if Opens(ts[0]) then Brackets(ts[1..], open + 1)
    else if ts[0] == Operator(')') then (if open == 0 then None else Brackets(ts[1..], open - 1))
    else Brackets(ts[1..], open)
  }

  /** A rule that can be closed by a newline. */
  predicate Closable(tokens: seq<PegToken>) {
    tokens != [] && Brackets(tokens, 0) == Some(0) && Last(tokens) != Operator('/')
  }

  predicate RuleNameOk(name: string) {
    AlphaNumeric(name) || (name != "" && name[0] == '%' && forall i :: 1 <= i < |name| ==> IsAlphaNumeric(name[i]))
  }

  // ----- spellings ----------------------------------------------------------------------------------------

  /** A white space character, or a comment with the newline that ends it. */
  datatype Filler = Space(c: char) | Comment(text: string, newline: char)

  predicate OneLine(text: string) {
    forall i :: 0 <= i < |text| ==> !IsNewline(text[i])
  }

  /** What may stand where newlines may stand, or where they may not. */
  predicate FillerOk(f: Filler, lines: bool) {
    match f
    case Space(c) => IsSpace(c) && (IsNewline(c) ==> lines)
    case Comment(text, newline) => lines && OneLine(text) && IsNewline(newline)
  }

  function FillerText(f: Filler): (r: string)
    ensures r != ""
  {
    match f
    case Space(c) => [c]
    case Comment(text, newline) => "#" + text + [newline]
  }

  predicate FillersOk(fillers: seq<Filler>, lines: bool) {
    forall i :: 0 <= i < |fillers| ==> FillerOk(fillers[i], lines)
  }

  function FillersText(fillers: seq<Filler>): string {
    if fillers == [] then "" else FillersText(Front(fillers)) + FillerText(Last(fillers))
  }

  /** Text that consists of white space and of comments. */
  ghost predicate IsGap(text: string, lines: bool) {
    exists fillers :: FillersOk(fillers, lines) && FillersText(fillers) == text
  }

  /** A comment without the newline that ends it, or nothing. */
  predicate IsComment(text: string) {
    text == "" || (text[0] == '#' && OneLine(text))
  }

  /** A token, whether the marker of a literal is written, and what stands behind it. */
  datatype SpelledToken = SpelledToken(token: PegToken, marked: bool, gap: string)

  function TokenText(t: PegToken, marked: bool): string {
    match t
    case Literal(text) => "'" + text + "'" + if marked then "i" else ""
    case Reference(name) => name
    case FunctionCall(name) => name + "("
    case Operator(op) => [op]
    case Regex(text) => text
  }

  function TokensText(ts: seq<SpelledToken>): string {
    if ts == [] then "" else TokensText(Front(ts)) + (TokenText(Last(ts).token, Last(ts).marked) + Last(ts).gap)
  }

  function TokensOf(ts: seq<SpelledToken>): (r: seq<PegToken>)
    ensures |r| == |ts| && forall i :: 0 <= i < |r| ==> r[i] == ts[i].token
  {
    seq(|ts|, i requires 0 <= i < |ts| => ts[i].token)
  }

  predicate StartsWithName(t: PegToken) {
    t.Reference? || t.FunctionCall?
  }

  /** The next token may stand right behind this one. */
  predicate MayTouch(t: SpelledToken, next: PegToken) {
    match t.token
    case Reference(_) => !StartsWithName(next) && next != Operator('(')
    case Literal(_) => t.marked || !(StartsWithName(next) && next.name != "" && next.name[0] == 'i')
    case _ => true
  }

  /** Behind these tokens of a definition a newline does not end the rule. */
  predicate GoesOn(ts: seq<PegToken>) {
    ts == [] || Brackets(ts, 0) != Some(0) || Last(ts) == Operator('/')
  }

  ghost predicate TokenSpelled(ts: seq<SpelledToken>, i: nat)
    requires i < |ts|
  {
    TokenOk(ts[i].token) && (ts[i].marked ==> ts[i].token.Literal?) &&
    IsGap(ts[i].gap, GoesOn(TokensOf(ts[..i + 1]))) &&
    (i > 0 && ts[i - 1].gap == "" ==> MayTouch(ts[i - 1], ts[i].token))
  }

  ghost predicate TokensSpelled(ts: seq<SpelledToken>) {
    forall i :: 0 <= i < |ts| ==> TokenSpelled(ts, i)
  }

  datatype SpelledParameter = SpelledParameter(name: string, gap: string)

  /** A rule, with what stands before it and between its parts. It ends with a newline, perhaps after a comment;
      the last rule may lack the newline. */
  datatype SpelledRule = SpelledRule(before: string, name: string, afterName: string, parameters: seq<SpelledParameter>,
                                     afterArrow: string, tokens: seq<SpelledToken>, comment: string, newline: string)

  /** Rules, with what stands behind the last one. */
  datatype SpelledGrammar = SpelledGrammar(rules: seq<SpelledRule>, after: string, comment: string)

  function ParametersText(parameters: seq<SpelledParameter>): string {
    if parameters == [] then "" else "(" + parameters[0].name + ")" + parameters[0].gap
  }

  function HeadText(r: SpelledRule): string {
    r.name + (r.afterName + (ParametersText(r.parameters) + ("<-" + r.afterArrow)))
  }

  function RuleText(r: SpelledRule): string {
    r.before + (HeadText(r) + (TokensText(r.tokens) + (r.comment + r.newline)))
  }

  /** The texts of the rules, one after the other. */
  function RulesText(rs: seq<SpelledRule>, text: SpelledRule -> string): string {
    if rs == [] then "" else text(rs[0]) + RulesText(rs[1..], text)
  }

  function GrammarText(G: SpelledGrammar): string {
    RulesText(G.rules, RuleText) + (G.after + G.comment)
  }

  ghost predicate HeadSpelled(r: SpelledRule) {
    && RuleNameOk(r.name) && IsGap(r.afterName, true) && IsGap(r.afterArrow, true)
    && |r.parameters| <= 1 && (forall i :: 0 <= i < |r.parameters| ==> ParameterSpelled(r.parameters[i]))
  }

  ghost predicate ParameterSpelled(p: SpelledParameter) {
    AlphaNumeric(p.name) && IsGap(p.gap, true)
  }

  ghost predicate SpellingOk(r: SpelledRule) {
    && IsGap(r.before, true) && HeadSpelled(r) && TokensSpelled(r.tokens)
    && IsComment(r.comment) && (r.newline == "" || (|r.newline| == 1 && IsNewline(r.newline[0])))
  }

  /** The end of the text closes a rule whatever its last token is, and even inside brackets. */
  ghost predicate RuleSpelled(r: SpelledRule) {
    var tokens := TokensOf(r.tokens);
    SpellingOk(r) && if r.newline == "" then tokens != [] && Brackets(tokens, 0).Some? else Closable(tokens)
  }

  /** Every rule but the last is ended by a newline, and the last one if anything follows. */
  ghost predicate LinesEnd(G: SpelledGrammar) {
    && (forall i :: 0 <= i < |G.rules| && G.rules[i].newline == "" ==> i == |G.rules| - 1 && G.after == "" && G.comment == "")
    && IsGap(G.after, true) && IsComment(G.comment)
  }

  ghost predicate GrammarSpelled(G: SpelledGrammar) {
    LinesEnd(G) && forall i :: 0 <= i < |G.rules| ==> RuleSpelled(G.rules[i])
  }

  function NamesOf(parameters: seq<SpelledParameter>): seq<string> {
    seq(|parameters|, i requires 0 <= i < |parameters| => parameters[i].name)
  }

  function RuleOf(r: SpelledRule): Rule {
    Rule(NamesOf(r.parameters), TokensOf(r.tokens))
  }

  /** The rules that are spelled. */
  function RulesOf(rs: seq<SpelledRule>): Rules {
    if rs == [] then map[] else RulesOf(Front(rs))[Last(rs).name := RuleOf(Last(rs))]
  }

  datatype NamedRule = NamedRule(name: string, rule: Rule)

  /** One of the spellings of a rule: a line, with a space behind every token. */
  function Line(r: NamedRule): SpelledRule {
    SpelledRule("", r.name, " ",
                seq(|r.rule.parameters|, i requires 0 <= i < |r.rule.parameters| => SpelledParameter(r.rule.parameters[i], " ")), " ",
                seq(|r.rule.tokens|, i requires 0 <= i < |r.rule.tokens| => SpelledToken(r.rule.tokens[i], false, " ")), "", "\n")
  }

  predicate RuleOk(r: NamedRule) {
    RuleNameOk(r.name) && |r.rule.parameters| <= 1 &&
    (forall i :: 0 <= i < |r.rule.parameters| ==> AlphaNumeric(r.rule.parameters[i])) &&
    (forall i :: 0 <= i < |r.rule.tokens| ==> TokenOk(r.rule.tokens[i])) && Closable(r.rule.tokens)
  }

  lemma {:induction false} SpaceIsGap(lines: bool)
    ensures IsGap("", lines) && IsGap(" ", lines)
  {
    assert FillersOk([], lines) && FillersText([]) == "";
    assert FillersOk([Space(' ')], lines) && FillersText([Space(' ')]) == "" + " ";
  }

  /** Every well-formed rule has a spelling. */
  lemma {:induction false} LineIsSpelled(r: NamedRule)
    requires RuleOk(r)
    ensures RuleSpelled(Line(r)) && RuleOf(Line(r)) == r.rule && Line(r).name == r.name
  {
    var tokens := Line(r).tokens;
    SpaceIsGap(true);
    forall i | 0 <= i < |tokens|
      ensures TokenSpelled(tokens, i)
    {
      SpaceIsGap(GoesOn(TokensOf(tokens[..i + 1])));
    }
    assert TokensOf(tokens) == r.rule.tokens;
    assert NamesOf(Line(r).parameters) == r.rule.parameters;
  }

  predicate DistinctNames(rs: seq<SpelledRule>) {
    forall i, j :: 0 <= i < j < |rs| ==> rs[i].name != rs[j].name
  }

  // ----- scanning a spelling ------------------------------------------------------------------------------

  /** `g` continues at `c` with `t`. */
  predicate At(g: string, c: nat, t: string) {
    c + |t| <= |g| && forall i :: 0 <= i < |t| ==> g[c + i] == t[i]
  }

  lemma {:induction false} AtSplit(g: string, c: nat, a: string, b: string)
    requires At(g, c, a + b)
    ensures At(g, c, a) && At(g, c + |a|, b)
  {
    forall i | 0 <= i < |a|
      ensures g[c + i] == a[i]
    {
      assert (a + b)[i] == a[i];
    }
    forall i | 0 <= i < |b|
      ensures g[c + |a| + i] == b[i]
    {
      assert (a + b)[|a| + i] == b[i];
    }
  }

  lemma {:induction false} AtIndex(g: string, c: nat, t: string)
    requires At(g, c, t)
    ensures forall i :: 0 <= i < |t| ==> g[c + i] == t[i]
    ensures g[c..c + |t|] == t
  {
  }

  lemma {:induction false} AlphaNumericScan(g: string, c: nat, e: nat)
    requires c <= e <= |g| && (forall i :: c <= i < e ==> IsAlphaNumeric(g[i])) && (e < |g| ==> !IsAlphaNumeric(g[e]))
    ensures AlphaNumericEnd(g, c) == e
    decreases e - c
  {
    if c < e {
      AlphaNumericScan(g, c + 1, e);
    }
  }

  lemma {:induction false} LineScan(g: string, c: nat, e: nat)
    requires c <= e <= |g| && (forall i :: c <= i < e ==> !IsNewline(g[i])) && (e < |g| ==> IsNewline(g[e]))
    ensures LineEnd(g, c) == e
    decreases e - c
  {
    if c < e {
      LineScan(g, c + 1, e);
    }
  }

  lemma {:induction false} LiteralScan(g: string, c: nat, t: string)
    requires LiteralOk(t) && At(g, c, t + "'")
    ensures LiteralEnd(g, c) == c + |t|
    decreases |t|
  {
    AtIndex(g, c, t + "'");
    assert forall i :: 0 <= i < |t| ==> (t + "'")[i] == t[i];
    if t == "" {
      assert g[c] == (t + "'")[0];
    } else {
      assert g[c] == t[0];
      var n := if t[0] == '\\' then 2 else 1;
      assert t + "'" == t[..n] + (t[n..] + "'");
      AtSplit(g, c, t[..n], t[n..] + "'");
      LiteralScan(g, c + n, t[n..]);
    }
  }

  lemma {:induction false} RegexScan(g: string, c: nat, t: string, final: char)
    requires final != '\\' && RegexOk(t, final) && At(g, c, t)
    ensures RegexEnd(g, c, final) == c + |t| - 1
    decreases |t|
  {
    AtIndex(g, c, t);
    assert g[c] == t[0];
    if t[0] != final {
      var n := if t[0] == '\\' then 2 else 1;
      assert t == t[..n] + t[n..];
      AtSplit(g, c, t[..n], t[n..]);
      RegexScan(g, c + n, t[n..], final);
    }
  }

  lemma {:induction false} NameScan(g: string, c: nat, name: string, e: nat)
    requires AlphaNumeric(name) && At(g, c, name) && e == c + |name| && (e < |g| ==> !IsAlphaNumeric(g[e]))
    ensures IsAlphaNumeric(g[c]) && AlphaNumericEnd(g, c) == e && AlphaNumericEnd(g, c + 1) == e && g[c..e] == name
  {
    AtIndex(g, c, name);
    forall i | c <= i < e
      ensures IsAlphaNumeric(g[i])
    {
      assert g[c + (i - c)] == name[i - c];
    }
    AlphaNumericScan(g, c, e);
    AlphaNumericScan(g, c + 1, e);
  }

  /** The character behind a token does not belong to it. */
  predicate Ends(t: PegToken, marked: bool, next: char) {
    match t
    case Reference(_) => !IsAlphaNumeric(next) && next != '('
    case Literal(_) => marked || next != 'i'
    case _ => true
  }

  /** A spelled token is scanned as that token, with its marker. */
  lemma {:induction false} TokenScan(g: string, c: nat, t: PegToken, marked: bool)
    requires TokenOk(t) && (marked ==> t.Literal?) && At(g, c, TokenText(t, marked))
    requires var e := c + |TokenText(t, marked)|; e < |g| ==> Ends(t, marked, g[e])
    ensures c < |g| && ScanToken(g, c) == Ok(Scanned(t, c + |TokenText(t, marked)|))
    ensures g[c] != '#' && !IsSpace(g[c])
  {
    match t
    case Literal(s) => QuotedScan(g, c, s, marked);
    case Reference(name) => NameScan(g, c, name, c + |name|);
    case FunctionCall(name) => CallScan(g, c, name);
    case Operator(op) => OperatorScan(g, c, op);
    case Regex(s) => RegexTokenScan(g, c, s);
  }

  lemma {:induction false} OperatorScan(g: string, c: nat, op: char)
    requires IsPegOperator(op) && At(g, c, [op])
    ensures ScanToken(g, c) == Ok(Scanned(Operator(op), c + 1)) && g[c] == op
  {
    AtIndex(g, c, [op]);
    assert g[c + 0] == op;
  }

  lemma {:induction false} CallScan(g: string, c: nat, name: string)
    requires AlphaNumeric(name) && At(g, c, name + "(")
    ensures c < |g| && ScanToken(g, c) == Ok(Scanned(FunctionCall(name), c + |name| + 1)) && IsAlphaNumeric(g[c])
  {
    AtSplit(g, c, name, "(");
    AtIndex(g, c + |name|, "(");
    assert g[c + |name| + 0] == '(';
    NameScan(g, c, name, c + |name|);
  }

  /** A literal with its quotes, and the marker if there is one. */
  lemma {:induction false} QuotedScan(g: string, c: nat, t: string, marked: bool)
    requires LiteralOk(t) && At(g, c, TokenText(Literal(t), marked))
    requires var e := c + |TokenText(Literal(t), marked)|; e < |g| && !marked ==> g[e] != 'i'
    ensures c < |g| && g[c] == '\'' && ScanToken(g, c) == Ok(Scanned(Literal(t), c + |TokenText(Literal(t), marked)|))
  {
    var quoted, marker, e := "'" + t + "'", if marked then "i" else "", c + 1 + |t|;
    AtSplit(g, c, quoted, marker);
    QuotedText(g, c, t);
    LiteralScan(g, c + 1, t);
    if marked {
      AtIndex(g, e + 1, marker);
      assert g[e + 1 + 0] == 'i';
    }
    ClosedLiteral(g, c, e, t, marked);
  }

  lemma {:induction false} ClosedLiteral(g: string, c: nat, e: nat, t: string, marked: bool)
    requires c < e < |g| && g[c] == '\'' && LiteralEnd(g, c + 1) == e && t == g[c + 1..e]
    requires marked <==> e + 1 < |g| && g[e + 1] == 'i'
    ensures ScanToken(g, c) == Ok(Scanned(Literal(t), if marked then e + 2 else e + 1))
  {
  }

  lemma {:induction false} QuotedText(g: string, c: nat, t: string)
    requires At(g, c, "'" + t + "'")
    ensures c < |g| && g[c] == '\'' && At(g, c + 1, t + "'") && g[c + 1..c + 1 + |t|] == t
  {
    assert "'" + t + "'" == "'" + (t + "'");
    AtSplit(g, c, "'", t + "'");
    AtIndex(g, c, "'");
    assert g[c + 0] == '\'';
    AtSplit(g, c + 1, t, "'");
  }

  lemma {:induction false} RegexTokenScan(g: string, c: nat, t: string)
    requires TokenOk(Regex(t)) && At(g, c, t)
    ensures ScanToken(g, c) == Ok(Scanned(Regex(t), c + |t|)) && g[c] == t[0]
  {
    AtIndex(g, c, t);
    assert g[c] == t[0] && t == [t[0]] + t[1..];
    AtSplit(g, c, [t[0]], t[1..]);
    RegexScan(g, c + 1, t[1..], if t[0] == '[' then ']' else '>');
  }

  // ----- a scanned token is spelled ------------------------------------------------------------------------

  lemma {:induction false} LiteralEndIsOk(g: string, c: nat)
    requires c <= |g| && LiteralEnd(g, c) < |g|
    ensures c <= LiteralEnd(g, c) && LiteralOk(g[c..LiteralEnd(g, c)]) && g[LiteralEnd(g, c)] == '\''
    decreases |g| - c
  {
    var e := LiteralEnd(g, c);
    if c < |g| && g[c] != '\'' {
      var n := if g[c] == '\\' then 2 else 1;
      assert LiteralEnd(g, c + n) == e;
      LiteralEndIsOk(g, c + n);
      assert g[c..e][n..] == g[c + n..e];
    }
  }

  lemma {:induction false} RegexEndIsOk(g: string, c: nat, final: char)
    requires c <= |g| && RegexEnd(g, c, final) < |g| && final != '\\'
    ensures RegexOk(g[c..RegexEnd(g, c, final) + 1], final)
    decreases |g| - c
  {
    var e := RegexEnd(g, c, final);
    if g[c] != final {
      var n := if g[c] == '\\' then 2 else 1;
      RegexEndIsOk(g, c + n, final);
      assert g[c..e + 1][n..] == g[c + n..e + 1];
    } else {
      assert g[c..e + 1] == [final];
    }
  }

  lemma {:induction false} NameEndIsOk(g: string, c: nat)
    requires c <= |g|
    ensures var e := AlphaNumericEnd(g, c); (forall i :: c <= i < e ==> IsAlphaNumeric(g[i])) && (e < |g| ==> !IsAlphaNumeric(g[e]))
    decreases |g| - c
  {
    if c < |g| && IsAlphaNumeric(g[c]) {
      NameEndIsOk(g, c + 1);
    }
  }

  /** This token is spelled at `c`, with or without the marker, up to `e`, and ends there. */
  predicate SpelledAt(g: string, c: nat, t: PegToken, marked: bool, e: nat) {
    TokenOk(t) && (marked ==> t.Literal?) && At(g, c, TokenText(t, marked)) && e == c + |TokenText(t, marked)| &&
    (e < |g| ==> Ends(t, marked, g[e]))
  }

  lemma {:induction false} QuotedAt(g: string, c: nat, e: nat, marked: bool)
    requires c < e < |g| && g[c] == '\'' && g[e] == '\'' && (marked ==> e + 1 < |g| && g[e + 1] == 'i')
    ensures At(g, c, TokenText(Literal(g[c + 1..e]), marked))
    ensures |TokenText(Literal(g[c + 1..e]), marked)| == e + 1 - c + if marked then 1 else 0
  {
  }

  lemma {:induction false} LiteralIsSpelled(g: string, c: nat)
    requires c < |g| && g[c] == '\'' && ScanToken(g, c).Ok?
    ensures exists marked :: SpelledAt(g, c, ScanToken(g, c).value.token, marked, ScanToken(g, c).value.end)
  {
    var e := LiteralEnd(g, c + 1);
    LiteralEndIsOk(g, c + 1);
    var marked := e + 1 < |g| && g[e + 1] == 'i';
    QuotedAt(g, c, e, marked);
    assert SpelledAt(g, c, Literal(g[c + 1..e]), marked, if marked then e + 2 else e + 1);
  }

  lemma {:induction false} OtherIsSpelled(g: string, c: nat)
    requires c < |g| && g[c] != '\'' && ScanToken(g, c).Ok?
    ensures SpelledAt(g, c, ScanToken(g, c).value.token, false, ScanToken(g, c).value.end)
  {
    if IsAlphaNumeric(g[c]) {
      NameEndIsOk(g, c + 1);
    } else if g[c] == '[' || g[c] == '<' {
      var final := if g[c] == '[' then ']' else '>';
      assert RegexEnd(g, c, final) == RegexEnd(g, c + 1, final);
      RegexEndIsOk(g, c + 1, final);
      assert g[c..RegexEnd(g, c, final) + 1][1..] == g[c + 1..RegexEnd(g, c, final) + 1];
    }
  }

  /** A token is scanned exactly if it is spelled there. */
  lemma {:induction false} ScannedIffSpelled(g: string, c: nat, t: PegToken, e: nat)
    requires c < |g|
    ensures ScanToken(g, c) == Ok(Scanned(t, e)) <==> exists marked :: SpelledAt(g, c, t, marked, e)
  {
    if ScanToken(g, c) == Ok(Scanned(t, e)) {
      if g[c] == '\'' {
        LiteralIsSpelled(g, c);
      } else {
        OtherIsSpelled(g, c);
      }
    }
    if marked :| SpelledAt(g, c, t, marked, e) {
      TokenScan(g, c, t, marked);
    }
  }

  // ----- what stands behind a token -----------------------------------------------------------------------

  lemma {:induction false} FillersStart(fillers: seq<Filler>, lines: bool)
    requires fillers != [] && FillersOk(fillers, lines)
    ensures FillersText(fillers) != "" && (FillersText(fillers)[0] == '#' || IsSpace(FillersText(fillers)[0]))
  {
    if |fillers| > 1 {
      FillersStart(Front(fillers), lines);
    } else {
      assert FillersText(fillers) == "" + FillerText(fillers[0]);
      assert FillerOk(fillers[0], lines);
    }
  }

  lemma {:induction false} GapStart(gap: string, lines: bool)
    requires IsGap(gap, lines) && gap != ""
    ensures gap[0] == '#' || IsSpace(gap[0])
  {
    var fillers :| FillersOk(fillers, lines) && FillersText(fillers) == gap;
    FillersStart(fillers, lines);
  }

  lemma {:induction false} TokenStart(t: PegToken, marked: bool)
    requires TokenOk(t)
    ensures var text := TokenText(t, marked);
            text != "" &&
            (IsAlphaNumeric(text[0]) ==> StartsWithName(t) && t.name != "" && t.name[0] == text[0]) &&
            (text[0] == '(' ==> t == Operator('('))
  {
  }

  lemma {:induction false} BracketsAppend(a: seq<PegToken>, b: seq<PegToken>, open: nat)
    ensures Brackets(a + b, open) == if Brackets(a, open).None? then None else Brackets(b, Brackets(a, open).value)
  {
    if a == [] {
      assert a + b == b;
    } else {
      assert (a + b)[1..] == a[1..] + b && (a + b)[0] == a[0];
      if Opens(a[0]) {
        BracketsAppend(a[1..], b, open + 1);
      } else if a[0] == Operator(')') {
        if open > 0 {
          BracketsAppend(a[1..], b, open - 1);
        }
      } else {
        BracketsAppend(a[1..], b, open);
      }
    }
  }

}
