/** Whatever text is read as rules is a spelling of them. With the round trip: the reader accepts exactly the spellings
    of grammars. */
module PegGrammarReading {
  import opened Common
  import opened PegPattern
  import opened PegGrammarText
  import opened PegGrammarSpelling
  import opened PegGrammarRoundTrip

  // ----- what has been read -------------------------------------------------------------------------------

  /** The rules read so far, the rule being read, and a comment that its line does not end yet. */
  datatype Draft = Draft(rules: seq<SpelledRule>, rule: SpelledRule, comment: string)

  const NO_RULE := SpelledRule("", "", "", [], "", [], "", "")

  function RuleSoFar(state: ParseState, r: SpelledRule): string {
    match state
    case RULE_NAME => r.before
    case RULE_SEPARATOR => r.before + (r.name + (r.afterName + ParametersText(r.parameters)))
    case RULE_DEFINITION => r.before + (HeadText(r) + TokensText(r.tokens))
  }

  function DraftText(state: ParseState, d: Draft): string {
    RulesText(d.rules, RuleText) + (RuleSoFar(state, d.rule) + d.comment)
  }

  ghost predicate PartSpelled(state: ParseState, r: SpelledRule) {
    IsGap(r.before, true) && r.comment == "" && r.newline == "" &&
    match state
    case RULE_NAME => r == NO_RULE.(before := r.before)
    case RULE_SEPARATOR => HeadSpelled(r) && r.afterArrow == "" && r.tokens == []
    case RULE_DEFINITION => HeadSpelled(r) && TokensSpelled(r.tokens) && Brackets(TokensOf(r.tokens), 0).Some?
  }

  ghost predicate AllEnded(rs: seq<SpelledRule>) {
    DistinctNames(rs) && forall i :: 0 <= i < |rs| ==> RuleSpelled(rs[i]) && rs[i].newline != ""
  }

  /** The state of the reader after a draft. */
  function StateOf(state: ParseState, d: Draft, pos: nat): Cursor {
    var tokens := TokensOf(d.rule.tokens);
    var open := Brackets(tokens, 0);
    Cursor(pos, state, RulesOf(d.rules), d.rule.name, RuleOf(d.rule), if open.Some? then open.value else 0,
           tokens != [] && Last(tokens) == Operator('/'))
  }

  /** The next character does not belong to the last token or comment. */
  predicate IsBoundary(g: string, pos: nat, state: ParseState, d: Draft) {
    pos < |g| ==>
      if d.comment != "" then IsNewline(g[pos])
      else state.RULE_DEFINITION? && d.rule.tokens != [] && Last(d.rule.tokens).gap == "" ==>
        Ends(Last(d.rule.tokens).token, Last(d.rule.tokens).marked, g[pos])
  }

  /** The text up to `pos` is that of the draft. */
  ghost function Written(g: string, pos: nat, state: ParseState, d: Draft): Condition {
    if pos <= |g| && g[..pos] == DraftText(state, d) then Met else Unmet
  }

  ghost function Sound(state: ParseState, d: Draft): Condition {
    if AllEnded(d.rules) && PartSpelled(state, d.rule) && IsComment(d.comment) then Met else Unmet
  }

  ghost function Boundary(g: string, pos: nat, state: ParseState, d: Draft): Condition {
    if IsBoundary(g, pos, state, d) then Met else Unmet
  }

  /** The state of the reader is that after the draft, whose text has been read. */
  ghost function Drafted(g: string, s: Cursor, d: Draft): Condition {
    if Written(g, s.pos, s.state, d) == Met && s == StateOf(s.state, d, s.pos) &&
       Sound(s.state, d) == Met && Boundary(g, s.pos, s.state, d) == Met then Met else Unmet
  }

  lemma {:induction false} WrittenOn(g: string, p: nat, q: nat, state: ParseState, d: Draft, state': ParseState, d': Draft, piece: string)
    requires Written(g, p, state, d) == Met && p <= q <= |g| && g[p..q] == piece
    requires DraftText(state', d') == DraftText(state, d) + piece
    ensures Written(g, q, state', d') == Met
  {
    assert g[..q] == g[..p] + g[p..q];
  }

  // ----- comments and gaps --------------------------------------------------------------------------------

  lemma {:induction false} LineEndIs(g: string, c: nat)
    requires c <= |g|
    ensures var e := LineEnd(g, c); (forall i :: c <= i < e ==> !IsNewline(g[i])) && (e < |g| ==> IsNewline(g[e]))
    decreases |g| - c
  {
    if c < |g| && !IsNewline(g[c]) {
      LineEndIs(g, c + 1);
    }
  }

  lemma {:induction false} CommentIsComment(g: string, c: nat)
    requires c < |g| && g[c] == '#'
    ensures var e := LineEnd(g, c + 1);
            c < e && g[c..e] != "" && IsComment(g[c..e]) && (e < |g| ==> IsNewline(g[e]))
  {
    LineEndIs(g, c + 1);
  }

  lemma {:induction false} CommentIsWritten(g: string, c: nat, state: ParseState, d: Draft, e: nat)
    requires Written(g, c, state, d) == Met && c <= e <= |g| && d.comment == ""
    ensures Written(g, e, state, d.(comment := g[c..e])) == Met
  {
    AddComment(state, d, g[c..e]);
    WrittenOn(g, c, e, state, d, state, d.(comment := g[c..e]), g[c..e]);
  }

  lemma {:induction false} CommentIsSound(state: ParseState, d: Draft, comment: string, g: string, e: nat)
    requires Sound(state, d) == Met && IsComment(comment) && comment != "" && (e < |g| ==> IsNewline(g[e]))
    ensures Sound(state, d.(comment := comment)) == Met && Boundary(g, e, state, d.(comment := comment)) == Met
  {
  }

  lemma {:induction false} CommentFits(g: string, c: nat, state: ParseState, d: Draft, e: nat)
    requires c < |g| && g[c] == '#' && e == LineEnd(g, c + 1) && d.comment == ""
    requires Written(g, c, state, d) == Met && Sound(state, d) == Met
    ensures c < e && Written(g, e, state, d.(comment := g[c..e])) == Met
    ensures Sound(state, d.(comment := g[c..e])) == Met && Boundary(g, e, state, d.(comment := g[c..e])) == Met
  {
    CommentIsComment(g, c);
    CommentIsWritten(g, c, state, d, e);
    CommentIsSound(state, d, g[c..e], g, e);
  }

  lemma {:induction false} CommentDrafted(g: string, s: Cursor, d: Draft, next: Cursor) returns (d': Draft)
    requires Drafted(g, s, d) == Met && s.pos < |g| && g[s.pos] == '#' && next == s.(pos := LineEnd(g, s.pos + 1)) && d.comment == ""
    ensures Drafted(g, next, d') == Met
  {
    CommentFits(g, s.pos, s.state, d, next.pos);
    d' := d.(comment := g[s.pos..next.pos]);
  }

  lemma {:induction false} AddComment(state: ParseState, d: Draft, comment: string)
    requires d.comment == ""
    ensures DraftText(state, d.(comment := comment)) == DraftText(state, d) + comment
  {
    Regroup(RulesText(d.rules, RuleText), RuleSoFar(state, d.rule), comment);
  }

  lemma {:induction false} Regroup(a: string, b: string, c: string)
    ensures a + (b + c) == (a + (b + "")) + c
  {
  }

  lemma {:induction false} LongerGap(text: string, f: Filler, lines: bool)
    requires IsGap(text, lines) && FillerOk(f, lines)
    ensures IsGap(text + FillerText(f), lines)
  {
    var fillers :| FillersOk(fillers, lines) && FillersText(fillers) == text;
    var more := fillers + [f];
    assert Front(more) == fillers && Last(more) == f;
    assert FillersOk(more, lines) && FillersText(more) == text + FillerText(f);
  }

  /** Text is added to the last gap. */
  function Extend(state: ParseState, r: SpelledRule, x: string): SpelledRule {
    match state
    case RULE_NAME => r.(before := r.before + x)
    case RULE_SEPARATOR =>
      if r.parameters == [] then r.(afterName := r.afterName + x)
      else r.(parameters := [SpelledParameter(r.parameters[0].name, r.parameters[0].gap + x)])
    case RULE_DEFINITION =>
      if r.tokens == [] then r.(afterArrow := r.afterArrow + x)
      else r.(tokens := Front(r.tokens) + [Last(r.tokens).(gap := Last(r.tokens).gap + x)])
  }

  lemma {:induction false} ExtendText(state: ParseState, r: SpelledRule, x: string)
    requires |r.parameters| <= 1
    ensures RuleSoFar(state, Extend(state, r, x)) == RuleSoFar(state, r) + x
  {
    match state
    case RULE_NAME =>
    case RULE_SEPARATOR =>
      if r.parameters == [] {
        assert r.before + (r.name + ((r.afterName + x) + "")) == (r.before + (r.name + (r.afterName + ""))) + x;
      } else {
        var p, gap := "(" + r.parameters[0].name + ")", r.parameters[0].gap;
        assert r.before + (r.name + (r.afterName + (p + (gap + x)))) == (r.before + (r.name + (r.afterName + (p + gap)))) + x;
      }
    case RULE_DEFINITION =>
      if r.tokens == [] {
        assert r.before + ((r.name + (r.afterName + (ParametersText(r.parameters) + ("<-" + (r.afterArrow + x))))) + "")
            == (r.before + ((r.name + (r.afterName + (ParametersText(r.parameters) + ("<-" + r.afterArrow)))) + "")) + x;
      } else {
        ExtendTokens(r.tokens, x);
        assert r.before + (HeadText(r) + (TokensText(r.tokens) + x)) == (r.before + (HeadText(r) + TokensText(r.tokens))) + x;
      }
  }

  lemma {:induction false} ExtendTokens(ts: seq<SpelledToken>, x: string)
    requires ts != []
    ensures TokensText(Front(ts) + [Last(ts).(gap := Last(ts).gap + x)]) == TokensText(ts) + x
  {
    var more := Front(ts) + [Last(ts).(gap := Last(ts).gap + x)];
    assert Front(more) == Front(ts) && Last(more) == Last(ts).(gap := Last(ts).gap + x);
    Longer(TokensText(Front(ts)), TokenText(Last(ts).token, Last(ts).marked), Last(ts).gap, x);
  }

  lemma {:induction false} Longer(a: string, b: string, c: string, x: string)
    ensures a + (b + (c + x)) == (a + (b + c)) + x
  {
  }

  lemma {:induction false} SameTokens(ts: seq<SpelledToken>, x: string)
    requires ts != []
    ensures TokensOf(Front(ts) + [Last(ts).(gap := Last(ts).gap + x)]) == TokensOf(ts)
  {
  }

  /** The tokens before the last one are spelled as before. */
  lemma {:induction false} LastGapSpelled(ts: seq<SpelledToken>, f: Filler)
    requires ts != [] && TokensSpelled(ts) && FillerOk(f, GoesOn(TokensOf(ts)))
    ensures TokensSpelled(Front(ts) + [Last(ts).(gap := Last(ts).gap + FillerText(f))])
  {
    var n := |ts| - 1;
    var more := Front(ts) + [Last(ts).(gap := Last(ts).gap + FillerText(f))];
    forall i | 0 <= i < n
      ensures TokenSpelled(more, i)
    {
      assert TokenSpelled(ts, i);
      SpelledAsBefore(ts, more, i);
    }
    assert TokenSpelled(ts, n);
    LastTokenSpelled(ts, f);
  }

  lemma {:induction false} SpelledAsBefore(ts: seq<SpelledToken>, more: seq<SpelledToken>, i: nat)
    requires i < |ts| && i < |more| && ts[..i + 1] == more[..i + 1] && TokenSpelled(ts, i)
    ensures TokenSpelled(more, i)
  {
    assert ts[i] == ts[..i + 1][i] && more[i] == more[..i + 1][i];
    assert i > 0 ==> ts[i - 1] == ts[..i + 1][i - 1] && more[i - 1] == more[..i + 1][i - 1];
  }

  lemma {:induction false} LastTokenSpelled(ts: seq<SpelledToken>, f: Filler)
    requires ts != [] && TokenSpelled(ts, |ts| - 1) && FillerOk(f, GoesOn(TokensOf(ts)))
    ensures TokenSpelled(Front(ts) + [Last(ts).(gap := Last(ts).gap + FillerText(f))], |ts| - 1)
  {
    var more := Front(ts) + [Last(ts).(gap := Last(ts).gap + FillerText(f))];
    assert ts[..|ts|] == ts && more[..|ts|] == more;
    SameTokens(ts, FillerText(f));
    LongerGap(Last(ts).gap, f, GoesOn(TokensOf(ts)));
  }

  lemma {:induction false} ExtendSpelled(state: ParseState, r: SpelledRule, f: Filler, lines: bool)
    requires PartSpelled(state, r) && FillerOk(f, lines)
    requires lines ==> state != RULE_DEFINITION || GoesOn(TokensOf(r.tokens))
    ensures PartSpelled(state, Extend(state, r, FillerText(f)))
  {
    var x := FillerText(f);
    if state == RULE_NAME {
      LongerGap(r.before, f, true);
    } else if state == RULE_SEPARATOR {
      if r.parameters == [] {
        LongerGap(r.afterName, f, true);
      } else {
        assert ParameterSpelled(r.parameters[0]);
        LongerGap(r.parameters[0].gap, f, true);
      }
    } else if r.tokens == [] {
      LongerGap(r.afterArrow, f, true);
    } else {
      LastGapSpelled(r.tokens, f);
      SameTokens(r.tokens, x);
    }
  }

  lemma {:induction false} ExtendState(state: ParseState, r: SpelledRule, x: string)
    requires |r.parameters| <= 1
    ensures RuleOf(Extend(state, r, x)) == RuleOf(r) && Extend(state, r, x).name == r.name
    ensures TokensOf(Extend(state, r, x).tokens) == TokensOf(r.tokens)
  {
    if state == RULE_DEFINITION && r.tokens != [] {
      SameTokens(r.tokens, x);
    }
    if state == RULE_SEPARATOR && r.parameters != [] {
      assert NamesOf(Extend(state, r, x).parameters) == NamesOf(r.parameters);
    }
  }

  lemma {:induction false} GapIsSound(s: Cursor, d: Draft, f: Filler, lines: bool)
    requires Sound(s.state, d) == Met && s == StateOf(s.state, d, s.pos) && FillerOk(f, lines)
    requires lines ==> s.state != RULE_DEFINITION || s.brackets > 0 || s.inOr || s.rule.tokens == []
    ensures Sound(s.state, Draft(d.rules, Extend(s.state, d.rule, FillerText(f)), "")) == Met
    ensures StateOf(s.state, Draft(d.rules, Extend(s.state, d.rule, FillerText(f)), ""), s.pos + 1) == s.(pos := s.pos + 1)
  {
    ExtendSpelled(s.state, d.rule, f, lines);
    ExtendState(s.state, d.rule, FillerText(f));
  }

  lemma {:induction false} BeforeGap(g: string, s: Cursor, d: Draft)
    requires Drafted(g, s, d) == Met && s.pos < |g| && !EndsRule(g, s)
    ensures IsComment(d.comment) && (d.comment != "" ==> IsNewline(g[s.pos])) && |d.rule.parameters| <= 1
    ensures IsNewline(g[s.pos]) ==> s.state != RULE_DEFINITION || s.brackets > 0 || s.inOr || s.rule.tokens == []
  {
  }

  /** White space, or the newline that ends a comment, is added to the last gap. */
  lemma {:induction false} GapDrafted(g: string, s: Cursor, d: Draft, next: Cursor) returns (d': Draft)
    requires Drafted(g, s, d) == Met && s.pos < |g| && IsSpace(g[s.pos]) && !EndsRule(g, s) && next == s.(pos := s.pos + 1)
    ensures Drafted(g, next, d') == Met
  {
    BeforeGap(g, s, d);
    d' := FillerDrafted(g, s, d, next);
  }

  lemma {:induction false} GapFits(g: string, s: Cursor, d: Draft, f: Filler)
    requires Written(g, s.pos, s.state, d) == Met && Sound(s.state, d) == Met && s == StateOf(s.state, d, s.pos) && s.pos < |g|
    requires FillerText(f) == d.comment + [g[s.pos]] && FillerOk(f, IsNewline(g[s.pos])) && |d.rule.parameters| <= 1
    requires IsNewline(g[s.pos]) ==> s.state != RULE_DEFINITION || s.brackets > 0 || s.inOr || s.rule.tokens == []
    ensures var d' := Draft(d.rules, Extend(s.state, d.rule, FillerText(f)), "");
            && Written(g, s.pos + 1, s.state, d') == Met && Sound(s.state, d') == Met
            && StateOf(s.state, d', s.pos + 1) == s.(pos := s.pos + 1) && Boundary(g, s.pos + 1, s.state, d') == Met
  {
    GapIsWritten(g, s.pos, s.state, d, FillerText(f));
    GapIsSound(s, d, f, IsNewline(g[s.pos]));
    BoundaryOfGap(g, s.pos + 1, s.state, d, FillerText(f));
  }

  lemma {:induction false} FillerDrafted(g: string, s: Cursor, d: Draft, next: Cursor) returns (d': Draft)
    requires Drafted(g, s, d) == Met && s.pos < |g| && IsSpace(g[s.pos]) && next == s.(pos := s.pos + 1)
    requires IsComment(d.comment) && (d.comment != "" ==> IsNewline(g[s.pos])) && |d.rule.parameters| <= 1
    requires IsNewline(g[s.pos]) ==> s.state != RULE_DEFINITION || s.brackets > 0 || s.inOr || s.rule.tokens == []
    ensures Drafted(g, next, d') == Met
  {
    var f := if d.comment == "" then Space(g[s.pos]) else Comment(d.comment[1..], g[s.pos]);
    FillerOfComment(d.comment, g[s.pos]);
    GapFits(g, s, d, f);
    d' := Draft(d.rules, Extend(s.state, d.rule, FillerText(f)), "");
  }

  lemma {:induction false} BoundaryOfGap(g: string, c: nat, state: ParseState, d: Draft, x: string)
    requires x != ""
    ensures Boundary(g, c, state, Draft(d.rules, Extend(state, d.rule, x), "")) == Met
  {
    GapEndsToken(state, d.rule, x);
  }

  lemma {:induction false} GapIsWritten(g: string, c: nat, state: ParseState, d: Draft, x: string)
    requires Written(g, c, state, d) == Met && c < |g| && x == d.comment + [g[c]] && |d.rule.parameters| <= 1
    ensures Written(g, c + 1, state, Draft(d.rules, Extend(state, d.rule, x), "")) == Met
  {
    GapText(state, d, x, g[c]);
    WrittenOn(g, c, c + 1, state, d, state, Draft(d.rules, Extend(state, d.rule, x), ""), [g[c]]);
  }

  lemma {:induction false} FillerOfComment(comment: string, c: char)
    requires IsComment(comment) && IsSpace(c) && (comment != "" ==> IsNewline(c))
    ensures var f := if comment == "" then Space(c) else Comment(comment[1..], c);
            FillerOk(f, IsNewline(c)) && FillerText(f) == comment + [c]
  {
    if comment != "" {
      assert "#" + comment[1..] == comment;
    }
  }

  lemma {:induction false} GapText(state: ParseState, d: Draft, x: string, c: char)
    requires |d.rule.parameters| <= 1 && x == d.comment + [c]
    ensures DraftText(state, Draft(d.rules, Extend(state, d.rule, x), "")) == DraftText(state, d) + [c]
  {
    ExtendText(state, d.rule, x);
    var a, b := RulesText(d.rules, RuleText), RuleSoFar(state, d.rule);
    assert a + ((b + (d.comment + [c])) + "") == (a + (b + d.comment)) + [c];
  }

  lemma {:induction false} GapEndsToken(state: ParseState, r: SpelledRule, x: string)
    requires x != ""
    ensures state.RULE_DEFINITION? && Extend(state, r, x).tokens != [] ==> Last(Extend(state, r, x).tokens).gap != ""
  {
  }

  // ----- rules --------------------------------------------------------------------------------------------

  lemma {:induction false} OneMoreRule(rs: seq<SpelledRule>, r: SpelledRule, text: SpelledRule -> string)
    ensures RulesText(rs + [r], text) == RulesText(rs, text) + text(r)
    decreases |rs|
  {
    if rs == [] {
      assert [r][1..] == [];
      assert RulesText([r], text) == text(r) + "" == "" + text(r);
    } else {
      assert (rs + [r])[0] == rs[0] && (rs + [r])[1..] == rs[1..] + [r];
      OneMoreRule(rs[1..], r, text);
      assert text(rs[0]) + (RulesText(rs[1..], text) + text(r)) == (text(rs[0]) + RulesText(rs[1..], text)) + text(r);
    }
  }

  lemma {:induction false} RulesOfMore(rs: seq<SpelledRule>, r: SpelledRule)
    ensures RulesOf(rs + [r]) == RulesOf(rs)[r.name := RuleOf(r)]
  {
    assert Front(rs + [r]) == rs && Last(rs + [r]) == r;
  }

  lemma {:induction false} NamesOfRules(rs: seq<SpelledRule>, i: nat)
    requires i < |rs|
    ensures rs[i].name in RulesOf(rs)
    decreases |rs|
  {
    if i < |rs| - 1 {
      NamesOfRules(Front(rs), i);
    }
  }

  lemma {:induction false} StaysDistinct(rs: seq<SpelledRule>, r: SpelledRule)
    requires DistinctNames(rs) && r.name !in RulesOf(rs)
    ensures DistinctNames(rs + [r])
  {
    forall i | 0 <= i < |rs|
      ensures rs[i].name != r.name
    {
      NamesOfRules(rs, i);
    }
  }

  /** The rule is complete, with its comment and newline. */
  function Ended(d: Draft, newline: string): SpelledRule {
    d.rule.(comment := d.comment, newline := newline)
  }

  lemma {:induction false} EndedText(d: Draft, newline: string)
    ensures RuleText(Ended(d, newline)) == RuleSoFar(RULE_DEFINITION, d.rule) + (d.comment + newline)
    ensures RuleOf(Ended(d, newline)) == RuleOf(d.rule)
  {
    var r := d.rule;
    assert HeadText(Ended(d, newline)) == HeadText(r);
    assert r.before + (HeadText(r) + (TokensText(r.tokens) + (d.comment + newline)))
        == (r.before + (HeadText(r) + TokensText(r.tokens))) + (d.comment + newline);
  }

  lemma {:induction false} EndedRules(d: Draft, newline: string)
    ensures RulesText(d.rules + [Ended(d, newline)], RuleText) == DraftText(RULE_DEFINITION, d) + newline
  {
    OneMoreRule(d.rules, Ended(d, newline), RuleText);
    EndedText(d, newline);
    Regroup3(RulesText(d.rules, RuleText), RuleSoFar(RULE_DEFINITION, d.rule), d.comment, newline);
  }

  lemma {:induction false} Regroup3(a: string, b: string, c: string, e: string)
    ensures a + (b + (c + e)) == (a + (b + c)) + e
  {
  }

  lemma {:induction false} NothingBegun(rules: seq<SpelledRule>)
    ensures DraftText(RULE_NAME, Draft(rules, NO_RULE, "")) == RulesText(rules, RuleText)
  {
    assert RulesText(rules, RuleText) + ("" + "") == RulesText(rules, RuleText);
  }

  lemma {:induction false} BeforeNewline(g: string, s: Cursor)
    requires s.pos < |g| && EndsRule(g, s)
    ensures s.state == RULE_DEFINITION && IsNewline(g[s.pos]) && s.brackets == 0 && !s.inOr && s.rule.tokens != []
  {
  }

  lemma {:induction false} ClosedDrafted(g: string, s: Cursor, d: Draft, next: Cursor) returns (d': Draft)
    requires Drafted(g, s, d) == Met && s.pos < |g| && s.name !in s.rules
    requires s.state == RULE_DEFINITION && IsNewline(g[s.pos]) && s.brackets == 0 && !s.inOr && s.rule.tokens != []
    requires next == Cursor(s.pos + 1, RULE_NAME, s.rules[s.name := s.rule], "", EMPTY_RULE, 0, false)
    ensures Drafted(g, next, d') == Met
  {
    ClosedFits(g, s, d, [g[s.pos]]);
    d' := Draft(d.rules + [Ended(d, [g[s.pos]])], NO_RULE, "");
  }

  lemma {:induction false} ClosedFits(g: string, s: Cursor, d: Draft, newline: string)
    requires Written(g, s.pos, RULE_DEFINITION, d) == Met && Sound(RULE_DEFINITION, d) == Met && s == StateOf(RULE_DEFINITION, d, s.pos)
    requires s.pos < |g| && newline == [g[s.pos]] && IsNewline(g[s.pos])
    requires s.brackets == 0 && !s.inOr && s.rule.tokens != [] && s.name !in s.rules
    ensures var d' := Draft(d.rules + [Ended(d, newline)], NO_RULE, "");
            && Written(g, s.pos + 1, RULE_NAME, d') == Met && Sound(RULE_NAME, d') == Met && Boundary(g, s.pos + 1, RULE_NAME, d') == Met
            && StateOf(RULE_NAME, d', s.pos + 1) == Cursor(s.pos + 1, RULE_NAME, s.rules[s.name := s.rule], "", EMPTY_RULE, 0, false)
  {
    ClosedIsWritten(g, s.pos, d, newline);
    ClosedState(s, d, newline);
    ClosedIsSound(s, d, newline);
    NoBoundary(g, s.pos + 1, RULE_NAME, Draft(d.rules + [Ended(d, newline)], NO_RULE, ""));
  }

  lemma {:induction false} NoBoundary(g: string, c: nat, state: ParseState, d: Draft)
    requires d.comment == "" && (state == RULE_DEFINITION ==> d.rule.tokens == [])
    ensures Boundary(g, c, state, d) == Met
  {
  }

  lemma {:induction false} ClosedText(d: Draft, newline: string)
    ensures DraftText(RULE_NAME, Draft(d.rules + [Ended(d, newline)], NO_RULE, "")) == DraftText(RULE_DEFINITION, d) + newline
  {
    EndedRules(d, newline);
    NothingBegun(d.rules + [Ended(d, newline)]);
  }

  lemma {:induction false} ClosedIsWritten(g: string, c: nat, d: Draft, newline: string)
    requires Written(g, c, RULE_DEFINITION, d) == Met && c < |g| && newline == [g[c]]
    ensures Written(g, c + 1, RULE_NAME, Draft(d.rules + [Ended(d, newline)], NO_RULE, "")) == Met
  {
    ClosedText(d, newline);
    WrittenOn(g, c, c + 1, RULE_DEFINITION, d, RULE_NAME, Draft(d.rules + [Ended(d, newline)], NO_RULE, ""), newline);
  }

  lemma {:induction false} ClosedState(s: Cursor, d: Draft, newline: string)
    requires s == StateOf(RULE_DEFINITION, d, s.pos)
    ensures StateOf(RULE_NAME, Draft(d.rules + [Ended(d, newline)], NO_RULE, ""), s.pos + 1)
            == Cursor(s.pos + 1, RULE_NAME, s.rules[s.name := s.rule], "", EMPTY_RULE, 0, false)
  {
    RulesOfMore(d.rules, Ended(d, newline));
    assert TokensOf([]) == [] && NamesOf([]) == [] && Brackets([], 0) == Some(0);
  }

  lemma {:induction false} ClosedIsSound(s: Cursor, d: Draft, newline: string)
    requires Sound(RULE_DEFINITION, d) == Met && s == StateOf(RULE_DEFINITION, d, s.pos) && |newline| == 1 && IsNewline(newline[0])
    requires s.brackets == 0 && !s.inOr && s.rule.tokens != [] && s.name !in s.rules
    ensures Sound(RULE_NAME, Draft(d.rules + [Ended(d, newline)], NO_RULE, "")) == Met
  {
    StaysDistinct(d.rules, Ended(d, newline));
    EndedIsSpelled(d, newline);
    AllEndedMore(d.rules, Ended(d, newline));
    SpaceIsGap(true);
  }

  lemma {:induction false} AllEndedMore(rs: seq<SpelledRule>, r: SpelledRule)
    requires AllEnded(rs) && RuleSpelled(r) && r.newline != "" && DistinctNames(rs + [r])
    ensures AllEnded(rs + [r])
  {
    forall i | 0 <= i < |rs + [r]|
      ensures RuleSpelled((rs + [r])[i]) && (rs + [r])[i].newline != ""
    {
      assert i < |rs| ==> RuleSpelled(rs[i]) && rs[i].newline != "";
    }
  }

  lemma {:induction false} EndedIsSpelled(d: Draft, newline: string)
    requires PartSpelled(RULE_DEFINITION, d.rule) && IsComment(d.comment) && |newline| == 1 && IsNewline(newline[0])
    requires Closable(TokensOf(d.rule.tokens))
    ensures RuleSpelled(Ended(d, newline))
  {
  }

  // ----- names and tokens ---------------------------------------------------------------------------------

  lemma {:induction false} NameIsOk(g: string, c: nat)
    requires c < |g|
    ensures var e := AlphaNumericEnd(g, if g[c] == '%' then c + 1 else c); e > c ==> RuleNameOk(g[c..e])
  {
    NameEndIsOk(g, if g[c] == '%' then c + 1 else c);
  }

  lemma {:induction false} NameIsWritten(g: string, c: nat, d: Draft, name: string)
    requires Written(g, c, RULE_NAME, d) == Met && Sound(RULE_NAME, d) == Met && d.comment == ""
    requires c + |name| <= |g| && g[c..c + |name|] == name
    ensures Written(g, c + |name|, RULE_SEPARATOR, d.(rule := d.rule.(name := name))) == Met
  {
    NameAdded(RulesText(d.rules, RuleText), d.rule.before, name);
    WrittenOn(g, c, c + |name|, RULE_NAME, d, RULE_SEPARATOR, d.(rule := d.rule.(name := name)), name);
  }

  lemma {:induction false} NameIsSound(d: Draft, name: string)
    requires Sound(RULE_NAME, d) == Met && RuleNameOk(name)
    ensures Sound(RULE_SEPARATOR, d.(rule := d.rule.(name := name))) == Met
  {
    SpaceIsGap(true);
  }

  lemma {:induction false} NameDrafted(g: string, s: Cursor, d: Draft, next: Cursor) returns (d': Draft)
    requires Drafted(g, s, d) == Met && s.pos < |g| && s.state == RULE_NAME && d.comment == "" && s.pos < next.pos <= |g|
    requires RuleNameOk(g[s.pos..next.pos])
    requires next == s.(pos := next.pos, state := RULE_SEPARATOR, name := g[s.pos..next.pos], rule := EMPTY_RULE)
    ensures Drafted(g, next, d') == Met
  {
    var name := g[s.pos..next.pos];
    d' := d.(rule := d.rule.(name := name));
    NameIsWritten(g, s.pos, d, name);
    NameIsSound(d, name);
    NoBoundary(g, next.pos, RULE_SEPARATOR, d');
    assert next == StateOf(RULE_SEPARATOR, d', next.pos);
  }

  lemma {:induction false} NameAdded(a: string, before: string, name: string)
    ensures a + ((before + (name + ("" + ""))) + "") == (a + (before + "")) + name
  {
  }

  lemma {:induction false} ParameterIsWritten(g: string, c: nat, d: Draft, p: string, q: nat)
    requires Written(g, c, RULE_SEPARATOR, d) == Met && Sound(RULE_SEPARATOR, d) == Met && d.comment == "" && d.rule.parameters == []
    requires c < q <= |g| && g[c..q] == "(" + p + ")"
    ensures Written(g, q, RULE_SEPARATOR, d.(rule := d.rule.(parameters := [SpelledParameter(p, "")]))) == Met
  {
    ParameterAdded(RulesText(d.rules, RuleText), d.rule, p);
    WrittenOn(g, c, q, RULE_SEPARATOR, d, RULE_SEPARATOR, d.(rule := d.rule.(parameters := [SpelledParameter(p, "")])), "(" + p + ")");
  }

  lemma {:induction false} ParameterIsSound(d: Draft, p: string)
    requires Sound(RULE_SEPARATOR, d) == Met && AlphaNumeric(p)
    ensures Sound(RULE_SEPARATOR, d.(rule := d.rule.(parameters := [SpelledParameter(p, "")]))) == Met
    ensures NamesOf([SpelledParameter(p, "")]) == [p]
  {
    SpaceIsGap(true);
  }

  lemma {:induction false} ParameterDrafted(g: string, s: Cursor, d: Draft, next: Cursor) returns (d': Draft)
    requires Drafted(g, s, d) == Met && s.pos < |g| && s.state == RULE_SEPARATOR && d.comment == "" && g[s.pos] == '('
    requires StepSeparator(g, s) == Ok(next)
    ensures Drafted(g, next, d') == Met
  {
    var p := g[s.pos + 1..next.pos - 1];
    ParameterIsOk(g, s, next);
    d' := d.(rule := d.rule.(parameters := [SpelledParameter(p, "")]));
    NoParameterYet(s, d);
    ParameterIsWritten(g, s.pos, d, p, next.pos);
    ParameterIsSound(d, p);
    NoBoundary(g, next.pos, RULE_SEPARATOR, d');
    assert next == StateOf(RULE_SEPARATOR, d', next.pos);
  }

  lemma {:induction false} NoParameterYet(s: Cursor, d: Draft)
    requires s == StateOf(s.state, d, s.pos) && s.rule.parameters == []
    ensures d.rule.parameters == []
  {
    assert |NamesOf(d.rule.parameters)| == |d.rule.parameters|;
  }

  lemma {:induction false} ParameterIsOk(g: string, s: Cursor, next: Cursor)
    requires s.pos < |g| && g[s.pos] == '(' && StepSeparator(g, s) == Ok(next)
    ensures s.rule.parameters == [] && s.pos + 2 < next.pos <= |g|
    ensures var p := g[s.pos + 1..next.pos - 1];
            && AlphaNumeric(p) && g[s.pos..next.pos] == "(" + p + ")"
            && next == s.(pos := next.pos, rule := s.rule.(parameters := [p]))
  {
    NameEndIsOk(g, s.pos + 1);
  }

  lemma {:induction false} ParameterAdded(a: string, r: SpelledRule, p: string)
    ensures a + ((r.before + (r.name + (r.afterName + ("(" + p + ")" + "")))) + "")
            == (a + ((r.before + (r.name + (r.afterName + ""))) + "")) + ("(" + p + ")")
  {
  }

  lemma {:induction false} ArrowIsWritten(g: string, c: nat, d: Draft)
    requires Written(g, c, RULE_SEPARATOR, d) == Met && d.comment == "" && d.rule.afterArrow == "" && d.rule.tokens == []
    requires c + 2 <= |g| && g[c] == '<' && g[c + 1] == '-'
    ensures Written(g, c + 2, RULE_DEFINITION, d) == Met
  {
    assert g[c..c + 2] == "<-";
    ArrowText(d);
    WrittenOn(g, c, c + 2, RULE_SEPARATOR, d, RULE_DEFINITION, d, "<-");
  }

  lemma {:induction false} ArrowText(d: Draft)
    requires d.comment == "" && d.rule.afterArrow == "" && d.rule.tokens == []
    ensures DraftText(RULE_DEFINITION, d) == DraftText(RULE_SEPARATOR, d) + "<-"
  {
    var r, parameters := d.rule, ParametersText(d.rule.parameters);
    assert HeadText(r) == r.name + (r.afterName + (parameters + ("<-" + "")));
    ArrowAdded(RulesText(d.rules, RuleText), r, parameters);
  }

  lemma {:induction false} ArrowIsSound(d: Draft)
    requires Sound(RULE_SEPARATOR, d) == Met
    ensures Sound(RULE_DEFINITION, d) == Met && d.rule.tokens == [] && d.rule.afterArrow == ""
  {
    assert TokensOf([]) == [] && Brackets([], 0) == Some(0);
  }

  lemma {:induction false} ArrowDrafted(g: string, s: Cursor, d: Draft, next: Cursor) returns (d': Draft)
    requires Drafted(g, s, d) == Met && s.pos + 1 < |g| && s.state == RULE_SEPARATOR && d.comment == ""
    requires g[s.pos] == '<' && g[s.pos + 1] == '-' && next == s.(pos := s.pos + 2, state := RULE_DEFINITION)
    ensures Drafted(g, next, d') == Met
  {
    d' := d;
    ArrowIsSound(d);
    ArrowIsWritten(g, s.pos, d);
    NoBoundary(g, next.pos, RULE_DEFINITION, d);
  }

  lemma {:induction false} ArrowAdded(a: string, r: SpelledRule, parameters: string)
    ensures a + ((r.before + ((r.name + (r.afterName + (parameters + ("<-" + "")))) + "")) + "")
            == (a + ((r.before + (r.name + (r.afterName + parameters))) + "")) + "<-"
  {
  }

  lemma {:induction false} OneMoreSpelled(ts: seq<SpelledToken>, t: PegToken, marked: bool)
    requires TokensSpelled(ts) && TokenOk(t) && (marked ==> t.Literal?)
    requires ts != [] && Last(ts).gap == "" ==> MayTouch(Last(ts), t)
    ensures TokensSpelled(ts + [SpelledToken(t, marked, "")])
    ensures TokensOf(ts + [SpelledToken(t, marked, "")]) == TokensOf(ts) + [t]
  {
    var more := ts + [SpelledToken(t, marked, "")];
    forall i | 0 <= i < |more|
      ensures TokenSpelled(more, i)
    {
      if i < |ts| {
        assert TokenSpelled(ts, i) && more[..i + 1] == ts[..i + 1];
      } else {
        SpaceIsGap(GoesOn(TokensOf(more[..i + 1])));
      }
    }
  }

  /** A token that stands right behind another one may stand there. */
  lemma {:induction false} TouchingTokens(g: string, c: nat, last: SpelledToken, t: PegToken, marked: bool, e: nat)
    requires SpelledAt(g, c, t, marked, e) && c < |g| && Ends(last.token, last.marked, g[c])
    ensures MayTouch(last, t)
  {
    AtIndex(g, c, TokenText(t, marked));
    TokenStart(t, marked);
    assert g[c + 0] == TokenText(t, marked)[0];
    NameStart(t, marked);
  }

  lemma {:induction false} NameStart(t: PegToken, marked: bool)
    requires TokenOk(t)
    ensures StartsWithName(t) ==> t.name != "" && TokenText(t, marked)[0] == t.name[0] && IsAlphaNumeric(t.name[0])
    ensures t == Operator('(') ==> TokenText(t, marked)[0] == '('
  {
  }

  /** The token at this position, and whether it has a marker. */
  lemma {:induction false} TokenFound(g: string, s: Cursor, d: Draft) returns (marked: bool)
    requires Sound(RULE_DEFINITION, d) == Met && Boundary(g, s.pos, RULE_DEFINITION, d) == Met && s.pos < |g| && d.comment == ""
    requires ScanToken(g, s.pos).Ok?
    ensures SpelledAt(g, s.pos, ScanToken(g, s.pos).value.token, marked, ScanToken(g, s.pos).value.end)
    ensures d.rule.tokens != [] && Last(d.rule.tokens).gap == "" ==> MayTouch(Last(d.rule.tokens), ScanToken(g, s.pos).value.token)
  {
    var t, e, ts := ScanToken(g, s.pos).value.token, ScanToken(g, s.pos).value.end, d.rule.tokens;
    ScannedIffSpelled(g, s.pos, t, e);
    marked :| SpelledAt(g, s.pos, t, marked, e);
    if ts != [] && Last(ts).gap == "" {
      TouchingTokens(g, s.pos, Last(ts), t, marked, e);
    }
  }

  lemma {:induction false} TokenIsSound(s: Cursor, d: Draft, t: PegToken, marked: bool, e: nat, next: Cursor)
    requires Sound(RULE_DEFINITION, d) == Met && s == StateOf(RULE_DEFINITION, d, s.pos) && TokenOk(t) && (marked ==> t.Literal?)
    requires d.rule.tokens != [] && Last(d.rule.tokens).gap == "" ==> MayTouch(Last(d.rule.tokens), t)
    requires AddToken(s, Scanned(t, e)) == Ok(next) && d.comment == ""
    ensures var d' := d.(rule := d.rule.(tokens := d.rule.tokens + [SpelledToken(t, marked, "")]));
            Sound(RULE_DEFINITION, d') == Met && next == StateOf(RULE_DEFINITION, d', e)
  {
    OneMoreSpelled(d.rule.tokens, t, marked);
    BracketsAppend(TokensOf(d.rule.tokens), [t], 0);
    assert [t][1..] == [];
  }

  lemma {:induction false} TokenDrafted(g: string, s: Cursor, d: Draft, next: Cursor) returns (d': Draft)
    requires Drafted(g, s, d) == Met && s.pos < |g| && s.state == RULE_DEFINITION && d.comment == "" && StepDefinition(g, s) == Ok(next)
    ensures Drafted(g, next, d') == Met
  {
    var t, e, ts := ScanToken(g, s.pos).value.token, ScanToken(g, s.pos).value.end, d.rule.tokens;
    var marked := TokenFound(g, s, d);
    d' := d.(rule := d.rule.(tokens := ts + [SpelledToken(t, marked, "")]));
    TokenIsSound(s, d, t, marked, e, next);
    TokenIsWritten(g, s.pos, d, t, marked, e);
    assert Boundary(g, e, RULE_DEFINITION, d') == Met;
  }

  lemma {:induction false} TokenIsWritten(g: string, c: nat, d: Draft, t: PegToken, marked: bool, e: nat)
    requires Written(g, c, RULE_DEFINITION, d) == Met && Sound(RULE_DEFINITION, d) == Met && d.comment == ""
    requires SpelledAt(g, c, t, marked, e)
    ensures Written(g, e, RULE_DEFINITION, d.(rule := d.rule.(tokens := d.rule.tokens + [SpelledToken(t, marked, "")]))) == Met
  {
    var d' := d.(rule := d.rule.(tokens := d.rule.tokens + [SpelledToken(t, marked, "")]));
    AtIndex(g, c, TokenText(t, marked));
    OneMoreTokenText(d.rule.tokens, SpelledToken(t, marked, ""));
    assert HeadText(d'.rule) == HeadText(d.rule);
    TokenAdded(RulesText(d.rules, RuleText), d.rule.before, HeadText(d.rule), TokensText(d.rule.tokens), TokenText(t, marked));
    WrittenOn(g, c, e, RULE_DEFINITION, d, RULE_DEFINITION, d', TokenText(t, marked));
  }

  lemma {:induction false} OneMoreTokenText(ts: seq<SpelledToken>, t: SpelledToken)
    requires t.gap == ""
    ensures TokensText(ts + [t]) == TokensText(ts) + TokenText(t.token, t.marked)
  {
    assert Front(ts + [t]) == ts && Last(ts + [t]) == t;
    assert TokenText(t.token, t.marked) + "" == TokenText(t.token, t.marked);
  }

  lemma {:induction false} TokenAdded(a: string, before: string, head: string, tokens: string, token: string)
    ensures a + ((before + (head + (tokens + token))) + "") == (a + ((before + (head + tokens)) + "")) + token
  {
  }

  // ----- the whole text -----------------------------------------------------------------------------------

  lemma {:induction false} NoCommentBefore(g: string, s: Cursor, d: Draft)
    requires Drafted(g, s, d) == Met && s.pos < |g| && !IsNewline(g[s.pos])
    ensures d.comment == ""
  {
  }

  /** What one step does. */
  lemma {:induction false} StepKind(g: string, s: Cursor, next: Cursor)
    requires s.pos < |g| && StepText(g, s) == Ok(next)
    ensures g[s.pos] == '#' ==> next == s.(pos := LineEnd(g, s.pos + 1))
    ensures g[s.pos] != '#' && EndsRule(g, s) ==>
              s.name !in s.rules && next == Cursor(s.pos + 1, RULE_NAME, s.rules[s.name := s.rule], "", EMPTY_RULE, 0, false)
    ensures g[s.pos] != '#' && !EndsRule(g, s) && IsSpace(g[s.pos]) ==> next == s.(pos := s.pos + 1)
    ensures g[s.pos] != '#' && !EndsRule(g, s) && !IsSpace(g[s.pos]) ==> TakesWord(g, s, next)
  {
  }

  predicate TakesWord(g: string, s: Cursor, next: Cursor)
    requires s.pos < |g|
  {
    match s.state
    case RULE_NAME => StepName(g, s) == Ok(next)
    case RULE_SEPARATOR => StepSeparator(g, s) == Ok(next)
    case RULE_DEFINITION => StepDefinition(g, s) == Ok(next)
  }

  lemma {:induction false} StepDrafted(g: string, s: Cursor, d: Draft, next: Cursor) returns (d': Draft)
    requires Drafted(g, s, d) == Met && s.pos < |g| && StepText(g, s) == Ok(next)
    ensures Drafted(g, next, d') == Met
  {
    StepKind(g, s, next);
    if g[s.pos] == '#' {
      NoCommentBefore(g, s, d);
      d' := CommentDrafted(g, s, d, next);
    } else if EndsRule(g, s) {
      BeforeNewline(g, s);
      d' := ClosedDrafted(g, s, d, next);
    } else if IsSpace(g[s.pos]) {
      d' := GapDrafted(g, s, d, next);
    } else {
      NoCommentBefore(g, s, d);
      d' := WordDrafted(g, s, d, next);
    }
  }

  lemma {:induction false} NameStep(g: string, s: Cursor, next: Cursor)
    requires s.pos < |g| && StepName(g, s) == Ok(next)
    ensures s.pos < next.pos <= |g| && RuleNameOk(g[s.pos..next.pos])
    ensures next == s.(pos := next.pos, state := RULE_SEPARATOR, name := g[s.pos..next.pos], rule := EMPTY_RULE)
  {
    NameIsOk(g, s.pos);
  }

  lemma {:induction false} ArrowTaken(g: string, s: Cursor, next: Cursor)
    requires s.pos < |g| && g[s.pos] != '(' && StepSeparator(g, s) == Ok(next)
    ensures s.pos + 1 < |g| && g[s.pos] == '<' && g[s.pos + 1] == '-' && next == s.(pos := s.pos + 2, state := RULE_DEFINITION)
  {
  }

  lemma {:induction false} WordDrafted(g: string, s: Cursor, d: Draft, next: Cursor) returns (d': Draft)
    requires Drafted(g, s, d) == Met && s.pos < |g| && d.comment == ""
    requires TakesWord(g, s, next)
    ensures Drafted(g, next, d') == Met
  {
    if s.state == RULE_NAME {
      NameStep(g, s, next);
      d' := NameDrafted(g, s, d, next);
    } else if s.state == RULE_DEFINITION {
      d' := TokenDrafted(g, s, d, next);
    } else if g[s.pos] == '(' {
      d' := ParameterDrafted(g, s, d, next);
    } else {
      ArrowTaken(g, s, next);
      d' := ArrowDrafted(g, s, d, next);
    }
  }

  lemma {:induction false} FinishDrafted(g: string, s: Cursor, d: Draft) returns (G: SpelledGrammar)
    requires Drafted(g, s, d) == Met && s.pos == |g| && Finish(s).Ok?
    ensures GrammarSpelled(G) && DistinctNames(G.rules) && GrammarText(G) == g && Finish(s) == Ok(RulesOf(G.rules))
  {
    assert g[..|g|] == g;
    if s.state == RULE_NAME {
      G := SpelledGrammar(d.rules, d.rule.before, d.comment);
    } else {
      G := SpelledGrammar(d.rules + [Ended(d, "")], "", "");
      LastIsSpelled(s, d);
      LastIsWritten(g, d);
      RulesOfMore(d.rules, Ended(d, ""));
    }
  }

  lemma {:induction false} LastIsWritten(g: string, d: Draft)
    requires Written(g, |g|, RULE_DEFINITION, d) == Met
    ensures GrammarText(SpelledGrammar(d.rules + [Ended(d, "")], "", "")) == g
  {
    assert g[..|g|] == g;
    EndedRules(d, "");
    var text := RulesText(d.rules + [Ended(d, "")], RuleText);
    assert text + ("" + "") == text && DraftText(RULE_DEFINITION, d) + "" == DraftText(RULE_DEFINITION, d);
  }

  lemma {:induction false} LastIsSpelled(s: Cursor, d: Draft)
    requires Sound(RULE_DEFINITION, d) == Met && s == StateOf(RULE_DEFINITION, d, s.pos) && s.rule.tokens != [] && s.name !in s.rules
    ensures GrammarSpelled(SpelledGrammar(d.rules + [Ended(d, "")], "", "")) && DistinctNames(d.rules + [Ended(d, "")])
  {
    var rs := d.rules + [Ended(d, "")];
    StaysDistinct(d.rules, Ended(d, ""));
    SpaceIsGap(true);
    EndOfTextCloses(d);
    forall i | 0 <= i < |rs|
      ensures RuleSpelled(rs[i]) && (rs[i].newline == "" ==> i == |rs| - 1)
    {
      assert i < |d.rules| ==> RuleSpelled(d.rules[i]) && d.rules[i].newline != "";
    }
  }

  lemma {:induction false} EndOfTextCloses(d: Draft)
    requires PartSpelled(RULE_DEFINITION, d.rule) && IsComment(d.comment) && TokensOf(d.rule.tokens) != []
    ensures RuleSpelled(Ended(d, ""))
  {
  }

  lemma {:induction false} ReadIsSpelled(g: string, s: Cursor, d: Draft) returns (G: SpelledGrammar)
    requires Drafted(g, s, d) == Met && Parse(g, s).Ok?
    ensures GrammarSpelled(G) && DistinctNames(G.rules) && GrammarText(G) == g && Parse(g, s) == Ok(RulesOf(G.rules))
    decreases |g| - s.pos
  {
    if s.pos == |g| {
      G := FinishDrafted(g, s, d);
    } else {
      var next := StepText(g, s).value;
      var d' := StepDrafted(g, s, d, next);
      G := ReadIsSpelled(g, next, d');
    }
  }

  lemma {:induction false} NothingReadYet(g: string)
    ensures Drafted(g, START, Draft([], NO_RULE, "")) == Met
  {
    NothingBegun([]);
    NoBoundary(g, 0, RULE_NAME, Draft([], NO_RULE, ""));
    assert g[..0] == "";
    assert Written(g, 0, RULE_NAME, Draft([], NO_RULE, "")) == Met;
    NothingIsSound();
  }

  lemma {:induction false} NothingIsSound()
    ensures Sound(RULE_NAME, Draft([], NO_RULE, "")) == Met && START == StateOf(RULE_NAME, Draft([], NO_RULE, ""), 0)
  {
    SpaceIsGap(true);
    assert TokensOf([]) == [] && NamesOf([]) == [] && Brackets([], 0) == Some(0);
  }

  /** The reader accepts exactly the spellings of grammars without duplicate names, and reads their rules. */
  lemma {:induction false} ReadsExactlySpellings(g: string, rules: Rules)
    ensures Parse(g, START) == Ok(rules) <==>
            exists G :: GrammarSpelled(G) && DistinctNames(G.rules) && GrammarText(G) == g && RulesOf(G.rules) == rules
  {
    if Parse(g, START) == Ok(rules) {
      NothingReadYet(g);
      var G := ReadIsSpelled(g, START, Draft([], NO_RULE, ""));
    }
    if G :| GrammarSpelled(G) && DistinctNames(G.rules) && GrammarText(G) == g && RulesOf(G.rules) == rules {
      RoundTrip(G);
    }
  }
}
