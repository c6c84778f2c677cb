/** Every spelling of a grammar is read as the grammar. */
module PegGrammarRoundTrip {
  import opened Common
  import opened PegPattern
  import opened PegGrammarText
  import opened PegGrammarSpelling

  datatype Condition = Met | Unmet

  /** `parse` reads the text step by step up to its end, as one atomic condition. */
  ghost function Reader(g: string, parse: Cursor -> Result<Rules>): Condition {
    if Follows(g, parse) && forall end: Cursor :: end.pos == |g| ==> parse(end) == Finish(end) then Met else Unmet
  }

  // ----- gaps ---------------------------------------------------------------------------------------------

  /** In this state a newline does not end a rule. */
  predicate Open(s: Cursor) {
    s.state == RULE_DEFINITION && s.brackets == 0 && !s.inOr ==> s.rule.tokens == []
  }

  lemma {:induction false} FillerRead(g: string, parse: Cursor -> Result<Rules>, s: Cursor, f: Filler, end: Cursor)
    requires Reader(g, parse) == Met && At(g, s.pos, FillerText(f)) && FillerOk(f, Open(s))
    requires end == s.(pos := s.pos + |FillerText(f)|)
    ensures end.pos <= |g| && parse(s) == parse(end)
  {
    AtIndex(g, s.pos, FillerText(f));
    match f
    case Space(c) =>
      assert g[s.pos + 0] == c;
      OneStep(g, parse, s, end);
    case Comment(text, newline) =>
      CommentParts(g, s.pos, text, newline);
      var line := s.(pos := s.pos + 1 + |text|);
      LineScan(g, s.pos + 1, line.pos);
      OneStep(g, parse, s, line);
      OneStep(g, parse, line, end);
  }

  lemma {:induction false} CommentParts(g: string, c: nat, text: string, newline: char)
    requires At(g, c, "#" + text + [newline]) && OneLine(text)
    ensures c + 1 + |text| < |g| && g[c] == '#' && g[c + 1 + |text|] == newline
    ensures forall i :: c + 1 <= i < c + 1 + |text| ==> !IsNewline(g[i])
  {
    AtSplit(g, c, "#" + text, [newline]);
    AtIndex(g, c + 1 + |text|, [newline]);
    assert g[c + 1 + |text| + 0] == newline;
    CommentStart(g, c, text);
  }

  lemma {:induction false} CommentStart(g: string, c: nat, text: string)
    requires At(g, c, "#" + text) && OneLine(text)
    ensures g[c] == '#' && forall i :: c + 1 <= i < c + 1 + |text| ==> !IsNewline(g[i])
  {
    AtIndex(g, c, "#" + text);
    assert g[c + 0] == '#';
    forall i | c + 1 <= i < c + 1 + |text|
      ensures !IsNewline(g[i])
    {
      assert g[c + (i - c)] == ("#" + text)[i - c] == text[i - c - 1];
    }
  }

  lemma {:induction false} FillersAt(g: string, c: nat, fillers: seq<Filler>)
    requires fillers != [] && At(g, c, FillersText(fillers))
    ensures At(g, c, FillersText(Front(fillers))) && At(g, c + |FillersText(Front(fillers))|, FillerText(Last(fillers)))
    ensures |FillersText(fillers)| == |FillersText(Front(fillers))| + |FillerText(Last(fillers))|
  {
    AtSplit(g, c, FillersText(Front(fillers)), FillerText(Last(fillers)));
  }

  lemma {:induction false} FillersRead(g: string, parse: Cursor -> Result<Rules>, s: Cursor, fillers: seq<Filler>, lines: bool, end: Cursor)
    requires Reader(g, parse) == Met && At(g, s.pos, FillersText(fillers)) && lines == Open(s)
    requires forall i :: 0 <= i < |fillers| ==> FillerOk(fillers[i], lines)
    requires end == s.(pos := s.pos + |FillersText(fillers)|)
    ensures end.pos <= |g| && parse(s) == parse(end)
    decreases |fillers|
  {
    if fillers != [] {
      var middle := s.(pos := s.pos + |FillersText(Front(fillers))|);
      FillersAt(g, s.pos, fillers);
      assert Open(middle) == lines && FillerOk(Last(fillers), lines);
      FillersRead(g, parse, s, Front(fillers), lines, middle);
      FillerRead(g, parse, middle, Last(fillers), end);
    }
  }

  lemma {:induction false} GapRead(g: string, parse: Cursor -> Result<Rules>, s: Cursor, gap: string, end: Cursor)
    requires Reader(g, parse) == Met && At(g, s.pos, gap) && IsGap(gap, Open(s)) && end == s.(pos := s.pos + |gap|)
    ensures end.pos <= |g| && parse(s) == parse(end)
  {
    var fillers :| FillersOk(fillers, Open(s)) && FillersText(fillers) == gap;
    FillersRead(g, parse, s, fillers, Open(s), end);
  }

  /** A comment up to a newline or the end of the text. */
  lemma {:induction false} CommentRead(g: string, parse: Cursor -> Result<Rules>, s: Cursor, comment: string, end: Cursor)
    requires Reader(g, parse) == Met && At(g, s.pos, comment) && IsComment(comment)
    requires end == s.(pos := s.pos + |comment|) && (end.pos < |g| ==> IsNewline(g[end.pos]))
    ensures parse(s) == parse(end)
  {
    if comment != "" {
      AtIndex(g, s.pos, comment);
      assert g[s.pos + 0] == '#';
      forall i | s.pos + 1 <= i < end.pos
        ensures !IsNewline(g[i])
      {
        assert g[s.pos + (i - s.pos)] == comment[i - s.pos];
      }
      LineScan(g, s.pos + 1, end.pos);
      OneStep(g, parse, s, end);
    }
  }

  // ----- tokens -------------------------------------------------------------------------------------------

  lemma {:induction false} TokenRead(g: string, parse: Cursor -> Result<Rules>, s: Cursor, t: PegToken, marked: bool, next: Cursor)
    requires Reader(g, parse) == Met && s.state == RULE_DEFINITION && TokenOk(t) && (marked ==> t.Literal?)
    requires At(g, s.pos, TokenText(t, marked))
    requires var e := s.pos + |TokenText(t, marked)|; (e < |g| ==> Ends(t, marked, g[e])) && AddToken(s, Scanned(t, e)) == Ok(next)
    ensures next.pos <= |g| && parse(s) == parse(next)
  {
    TokenScan(g, s.pos, t, marked);
    OneStep(g, parse, s, next);
  }

  lemma {:induction false} BracketsPrefix(ts: seq<PegToken>, k: nat)
    requires k <= |ts| && Brackets(ts, 0).Some?
    ensures Brackets(ts[..k], 0).Some?
  {
    assert ts == ts[..k] + ts[k..];
    BracketsAppend(ts[..k], ts[k..], 0);
  }

  function LengthOf(t: SpelledToken): nat {
    |TokenText(t.token, t.marked)| + |t.gap|
  }

  /** Where token `k` begins, if the first one begins at `c`. */
  function StartOf(c: nat, ts: seq<SpelledToken>, k: nat): nat
    requires k <= |ts|
    decreases k
  {
    if k == 0 then c else StartOf(c, ts, k - 1) + LengthOf(ts[k - 1])
  }

  /** A token, and the gap behind it. */
  ghost predicate Stands(g: string, p: nat, t: SpelledToken) {
    At(g, p, TokenText(t.token, t.marked)) && At(g, p + |TokenText(t.token, t.marked)|, t.gap)
  }

  lemma {:induction false} StartOfFront(c: nat, ts: seq<SpelledToken>, k: nat)
    requires k < |ts|
    ensures StartOf(c, Front(ts), k) == StartOf(c, ts, k)
    decreases k
  {
    if k > 0 {
      StartOfFront(c, ts, k - 1);
    }
  }

  ghost predicate StandsAt(g: string, c: nat, ts: seq<SpelledToken>, k: nat)
    requires k < |ts|
  {
    Stands(g, StartOf(c, ts, k), ts[k])
  }

  lemma {:induction false} TokensStand(g: string, c: nat, ts: seq<SpelledToken>)
    requires At(g, c, TokensText(ts))
    ensures c + |TokensText(ts)| == StartOf(c, ts, |ts|)
    ensures forall k :: 0 <= k < |ts| ==> StandsAt(g, c, ts, k)
    decreases |ts|
  {
    if ts != [] {
      var n := |ts| - 1;
      LastStands(g, c, TokensText(Front(ts)), Last(ts));
      TokensStand(g, c, Front(ts));
      StartOfFront(c, ts, n);
      forall k | 0 <= k < n
        ensures StandsAt(g, c, ts, k)
      {
        StartOfFront(c, ts, k);
        assert StandsAt(g, c, Front(ts), k);
      }
    }
  }

  lemma {:induction false} LastStands(g: string, c: nat, before: string, t: SpelledToken)
    requires At(g, c, before + (TokenText(t.token, t.marked) + t.gap))
    ensures At(g, c, before) && Stands(g, c + |before|, t)
  {
    AtSplit(g, c, before, TokenText(t.token, t.marked) + t.gap);
    AtSplit(g, c + |before|, TokenText(t.token, t.marked), t.gap);
  }

  /** The state after the tokens `read` of a definition, at `pos`. */
  function AfterTokens(body: Cursor, read: seq<PegToken>, pos: nat): Cursor {
    var open := Brackets(read, 0);
    Cursor(pos, RULE_DEFINITION, body.rules, body.name, Rule(body.rule.parameters, read),
           if open.Some? then open.value else 0, read != [] && Last(read) == Operator('/'))
  }

  /** Behind the last token the definition ends. */
  predicate EndsAt(g: string, e: nat) {
    e <= |g| && (e < |g| ==> g[e] == '#' || IsNewline(g[e]))
  }

  /** The character, if there is one, does not belong to the token. */
  ghost function EndsBefore(g: string, e: nat, t: PegToken, marked: bool): Condition {
    if e < |g| ==> Ends(t, marked, g[e]) then Met else Unmet
  }

  /** White space, a comment or nothing comes first. */
  predicate StartsLikeGap(gap: string) {
    gap == "" || gap[0] == '#' || IsSpace(gap[0])
  }

  lemma {:induction false} GapEnds(g: string, e: nat, t: PegToken, marked: bool, gap: string)
    requires gap != "" && StartsLikeGap(gap) && At(g, e, gap)
    ensures EndsBefore(g, e, t, marked) == Met
  {
    AtIndex(g, e, gap);
    assert g[e + 0] == gap[0];
  }

  lemma {:induction false} LastTokenEnds(g: string, e: nat, t: PegToken, marked: bool)
    requires EndsAt(g, e)
    ensures EndsBefore(g, e, t, marked) == Met
  {
  }

  lemma {:induction false} NextTokenStarts(g: string, e: nat, t: SpelledToken, next: SpelledToken)
    requires TokenOk(next.token) && MayTouch(t, next.token) && At(g, e, TokenText(next.token, next.marked))
    ensures EndsBefore(g, e, t.token, t.marked) == Met
  {
    TokenStart(next.token, next.marked);
    AtIndex(g, e, TokenText(next.token, next.marked));
    assert g[e + 0] == TokenText(next.token, next.marked)[0];
  }

  lemma {:induction false} OneMoreToken(body: Cursor, read: seq<PegToken>, p: nat, t: PegToken, e: nat)
    requires Brackets(read + [t], 0).Some?
    ensures AddToken(AfterTokens(body, read, p), Scanned(t, e)) == Ok(AfterTokens(body, read + [t], e))
  {
    BracketsAppend(read, [t], 0);
    assert [t][1..] == [];
  }

  lemma {:induction false} MayGoOn(body: Cursor, read: seq<PegToken>, e: nat)
    requires Brackets(read, 0).Some?
    ensures GoesOn(read) == Open(AfterTokens(body, read, e))
  {
  }

  /** All tokens stand where they belong, and behind the last one the definition ends. */
  ghost function TokensPlace(g: string, c: nat, ts: seq<SpelledToken>): Condition {
    if EndsAt(g, StartOf(c, ts, |ts|)) && forall k :: 0 <= k < |ts| ==> StandsAt(g, c, ts, k) then Met else Unmet
  }

  /** The state after the first `k` tokens of a definition. */
  function AfterFirst(body: Cursor, ts: seq<SpelledToken>, k: nat): Cursor
    requires k <= |ts|
  {
    AfterTokens(body, TokensOf(ts[..k]), StartOf(body.pos, ts, k))
  }

  /** The tokens of a definition are read one after the other, with what stands between them. */
  lemma {:induction false} TokensRead(g: string, parse: Cursor -> Result<Rules>, body: Cursor, ts: seq<SpelledToken>, k: nat)
    requires Reader(g, parse) == Met && body.state == RULE_DEFINITION && body.brackets == 0 && !body.inOr && body.rule.tokens == []
    requires k <= |ts| && TokensSpelled(ts) && Brackets(TokensOf(ts), 0).Some? && TokensPlace(g, body.pos, ts) == Met
    ensures parse(body) == parse(AfterFirst(body, ts, k))
    decreases k
  {
    if k == 0 {
      assert TokensOf(ts[..0]) == [];
      assert AfterFirst(body, ts, 0) == body;
    } else {
      TokensRead(g, parse, body, ts, k - 1);
      NextTokenRead(g, parse, body, ts, k - 1);
    }
  }

  lemma {:induction false} NextTokenRead(g: string, parse: Cursor -> Result<Rules>, body: Cursor, ts: seq<SpelledToken>, k: nat)
    requires Reader(g, parse) == Met && TokensPlace(g, body.pos, ts) == Met
    requires k < |ts| && TokensSpelled(ts) && Brackets(TokensOf(ts), 0).Some?
    ensures parse(AfterFirst(body, ts, k)) == parse(AfterFirst(body, ts, k + 1))
  {
    TokenAndGap(g, body.pos, ts, k);
    TokenIsTaken(body, ts, k);
    OneTokenRead(g, parse, AfterFirst(body, ts, k), ts[k], AfterFirst(body, ts, k + 1));
  }

  /** The text of a token and the gap behind it stand from `p` to `q`, and the token ends where its text ends. */
  ghost function TokenPlace(g: string, t: SpelledToken, p: nat, q: nat): Condition {
    var e := p + |TokenText(t.token, t.marked)|;
    if Stands(g, p, t) && q == e + |t.gap| && EndsBefore(g, e, t.token, t.marked) == Met then Met else Unmet
  }

  lemma {:induction false} TokenAndGap(g: string, c: nat, ts: seq<SpelledToken>, k: nat)
    requires k < |ts| && TokensSpelled(ts) && TokensPlace(g, c, ts) == Met
    ensures TokenPlace(g, ts[k], StartOf(c, ts, k), StartOf(c, ts, k + 1)) == Met
  {
    assert StandsAt(g, c, ts, k) && TokenSpelled(ts, k);
    if ts[k].gap != "" {
      GapStart(ts[k].gap, GoesOn(TokensOf(ts[..k + 1])));
    }
    if k + 1 < |ts| {
      assert StandsAt(g, c, ts, k + 1) && TokenSpelled(ts, k + 1);
      PlaceOfToken(g, ts[k], ts[k + 1], StartOf(c, ts, k), StartOf(c, ts, k + 1));
    } else {
      PlaceOfLastToken(g, ts[k], StartOf(c, ts, k), StartOf(c, ts, k + 1));
    }
  }

  lemma {:induction false} PlaceOfToken(g: string, t: SpelledToken, next: SpelledToken, p: nat, q: nat)
    requires Stands(g, p, t) && q == p + LengthOf(t) && Stands(g, q, next)
    requires StartsLikeGap(t.gap) && TokenOk(next.token) && (t.gap == "" ==> MayTouch(t, next.token))
    ensures TokenPlace(g, t, p, q) == Met
  {
    var e := p + |TokenText(t.token, t.marked)|;
    if t.gap != "" {
      GapEnds(g, e, t.token, t.marked, t.gap);
    } else {
      assert e == q;
      NextTokenStarts(g, q, t, next);
    }
  }

  lemma {:induction false} PlaceOfLastToken(g: string, t: SpelledToken, p: nat, q: nat)
    requires Stands(g, p, t) && q == p + LengthOf(t) && EndsAt(g, q) && StartsLikeGap(t.gap)
    ensures TokenPlace(g, t, p, q) == Met
  {
    var e := p + |TokenText(t.token, t.marked)|;
    if t.gap != "" {
      GapEnds(g, e, t.token, t.marked, t.gap);
    } else {
      assert e == q;
      LastTokenEnds(g, q, t.token, t.marked);
    }
  }

  /** Reading the token leads to `end`, except for the gap behind it, and the gap may stand there. */
  ghost function TokenTaken(s: Cursor, t: SpelledToken, end: Cursor): Condition {
    var e := s.pos + |TokenText(t.token, t.marked)|;
    if s.state == RULE_DEFINITION && TokenOk(t.token) && (t.marked ==> t.token.Literal?) &&
       AddToken(s, Scanned(t.token, e)) == Ok(end.(pos := e)) && IsGap(t.gap, Open(end.(pos := e))) then Met else Unmet
  }

  lemma {:induction false} TokenIsTaken(body: Cursor, ts: seq<SpelledToken>, k: nat)
    requires k < |ts| && TokensSpelled(ts) && Brackets(TokensOf(ts), 0).Some?
    ensures TokenTaken(AfterFirst(body, ts, k), ts[k], AfterFirst(body, ts, k + 1)) == Met
  {
    var before, read := TokensOf(ts[..k]), TokensOf(ts[..k + 1]);
    var p, q := StartOf(body.pos, ts, k), StartOf(body.pos, ts, k + 1);
    assert read == before + [ts[k].token];
    assert TokensOf(ts)[..k + 1] == read;
    BracketsPrefix(TokensOf(ts), k + 1);
    assert TokenSpelled(ts, k);
    TokenMovesOn(body, before, p, ts[k], q);
  }

  lemma {:induction false} TokenMovesOn(body: Cursor, before: seq<PegToken>, p: nat, t: SpelledToken, q: nat)
    requires TokenOk(t.token) && (t.marked ==> t.token.Literal?)
    requires Brackets(before + [t.token], 0).Some? && IsGap(t.gap, GoesOn(before + [t.token]))
    ensures TokenTaken(AfterTokens(body, before, p), t, AfterTokens(body, before + [t.token], q)) == Met
  {
    var e := p + |TokenText(t.token, t.marked)|;
    OneMoreToken(body, before, p, t.token, e);
    MayGoOn(body, before + [t.token], e);
  }

  /** A token and what stands behind it. */
  lemma {:induction false} OneTokenRead(g: string, parse: Cursor -> Result<Rules>, s: Cursor, t: SpelledToken, end: Cursor)
    requires Reader(g, parse) == Met && TokenPlace(g, t, s.pos, end.pos) == Met && TokenTaken(s, t, end) == Met
    ensures parse(s) == parse(end)
  {
    var e := s.pos + |TokenText(t.token, t.marked)|;
    TokenRead(g, parse, s, t.token, t.marked, end.(pos := e));
    GapRead(g, parse, end.(pos := e), t.gap, end);
  }

  // ----- the head of a rule -------------------------------------------------------------------------------

  lemma {:induction false} NameRead(g: string, parse: Cursor -> Result<Rules>, s: Cursor, name: string, end: Cursor)
    requires Reader(g, parse) == Met
    requires s.state == RULE_NAME && s.rule == EMPTY_RULE && RuleNameOk(name) && At(g, s.pos, name)
    requires s.pos + |name| < |g| && !IsAlphaNumeric(g[s.pos + |name|])
    requires end == s.(pos := s.pos + |name|, state := RULE_SEPARATOR, name := name)
    ensures parse(s) == parse(end)
  {
    var c, e := s.pos, s.pos + |name|;
    AtIndex(g, c, name);
    assert g[c + 0] == name[0];
    var from := if g[c] == '%' then c + 1 else c;
    forall i | from <= i < e
      ensures IsAlphaNumeric(g[i])
    {
      assert g[c + (i - c)] == name[i - c];
    }
    AlphaNumericScan(g, from, e);
    OneStep(g, parse, s, end);
  }

  /** The parameter and what stands behind it. */
  lemma {:induction false} ParameterRead(g: string, parse: Cursor -> Result<Rules>, s: Cursor, p: SpelledParameter, end: Cursor)
    requires Reader(g, parse) == Met && s.state == RULE_SEPARATOR && s.rule == EMPTY_RULE && ParameterSpelled(p)
    requires At(g, s.pos, "(" + p.name + ")" + p.gap)
    requires end == s.(pos := s.pos + |p.name| + 2 + |p.gap|, rule := Rule([p.name], []))
    ensures end.pos <= |g| && parse(s) == parse(end)
  {
    var closed := s.(pos := s.pos + |p.name| + 2, rule := Rule([p.name], []));
    AtSplit(g, s.pos, "(" + p.name + ")", p.gap);
    ParameterStep(g, parse, s, p.name, closed);
    GapRead(g, parse, closed, p.gap, end);
  }

  lemma {:induction false} ParameterStep(g: string, parse: Cursor -> Result<Rules>, s: Cursor, p: string, next: Cursor)
    requires Reader(g, parse) == Met && s.state == RULE_SEPARATOR && s.rule == EMPTY_RULE && AlphaNumeric(p)
    requires At(g, s.pos, "(" + p + ")") && next == s.(pos := s.pos + |p| + 2, rule := Rule([p], []))
    ensures parse(s) == parse(next)
  {
    ParameterText(g, s.pos, p);
    OneStep(g, parse, s, next);
  }

  lemma {:induction false} ParameterText(g: string, e: nat, p: string)
    requires AlphaNumeric(p) && At(g, e, "(" + p + ")")
    ensures e < |g| && g[e] == '(' && AlphaNumericEnd(g, e + 1) == e + 1 + |p| < |g| && g[e + 1 + |p|] == ')'
    ensures g[e + 1..e + 1 + |p|] == p
  {
    assert "(" + p + ")" == "(" + (p + ")");
    AtSplit(g, e, "(", p + ")");
    AtSplit(g, e + 1, p, ")");
    AtIndex(g, e, "(");
    AtIndex(g, e + 1 + |p|, ")");
    assert g[e + 0] == '(' && g[e + 1 + |p| + 0] == ')';
    NameScan(g, e + 1, p, e + 1 + |p|);
  }

  lemma {:induction false} ArrowRead(g: string, parse: Cursor -> Result<Rules>, s: Cursor, gap: string, end: Cursor)
    requires Reader(g, parse) == Met && s.state == RULE_SEPARATOR && s.rule.tokens == [] && IsGap(gap, true) && At(g, s.pos, "<-" + gap)
    requires end == s.(pos := s.pos + 2 + |gap|, state := RULE_DEFINITION)
    ensures end.pos <= |g| && parse(s) == parse(end)
  {
    ArrowText(g, s.pos, gap);
    ArrowStep(g, parse, s, s.(pos := s.pos + 2, state := RULE_DEFINITION));
    GapRead(g, parse, s.(pos := s.pos + 2, state := RULE_DEFINITION), gap, end);
  }

  lemma {:induction false} ArrowText(g: string, c: nat, gap: string)
    requires At(g, c, "<-" + gap)
    ensures c + 1 < |g| && g[c] == '<' && g[c + 1] == '-' && At(g, c + 2, gap)
  {
    AtSplit(g, c, "<-", gap);
    AtIndex(g, c, "<-");
    assert "<-"[0] == '<' && "<-"[1] == '-' && g[c + 0] == '<' && g[c + 1] == '-';
  }

  lemma {:induction false} ArrowStep(g: string, parse: Cursor -> Result<Rules>, s: Cursor, next: Cursor)
    requires Reader(g, parse) == Met && s.state == RULE_SEPARATOR && s.pos + 1 < |g| && g[s.pos] == '<' && g[s.pos + 1] == '-'
    requires next == s.(pos := s.pos + 2, state := RULE_DEFINITION)
    ensures parse(s) == parse(next)
  {
    OneStep(g, parse, s, next);
  }

  /** What stands behind the name of a rule is no part of it. */
  lemma {:induction false} NameEnds(g: string, e: nat, gap: string, parameters: string, rest: string)
    requires IsGap(gap, true) && (parameters == "" || parameters[0] == '(') && At(g, e, gap + (parameters + ("<-" + rest)))
    ensures e < |g| && !IsAlphaNumeric(g[e])
  {
    var text := gap + (parameters + ("<-" + rest));
    if gap != "" {
      GapStart(gap, true);
    }
    AtIndex(g, e, text);
    assert g[e + 0] == text[0];
  }

  lemma {:induction false} FourParts(g: string, c: nat, a: string, b: string, d: string, e: string)
    requires At(g, c, a + (b + (d + e)))
    ensures At(g, c, a) && At(g, c + |a|, b) && At(g, c + |a| + |b|, d) && At(g, c + |a| + |b| + |d|, e)
    ensures At(g, c + |a|, b + (d + e))
  {
    AtSplit(g, c, a, b + (d + e));
    AtSplit(g, c + |a|, b, d + e);
    AtSplit(g, c + |a| + |b|, d, e);
  }

  /** The name and what stands behind it. */
  lemma {:induction false} NameAndGapRead(g: string, parse: Cursor -> Result<Rules>, s: Cursor, name: string, gap: string, end: Cursor)
    requires Reader(g, parse) == Met && s.state == RULE_NAME && s.rule == EMPTY_RULE && RuleNameOk(name) && IsGap(gap, true)
    requires NamePlace(g, s.pos, name, gap) == Met
    requires end == s.(pos := s.pos + |name| + |gap|, state := RULE_SEPARATOR, name := name)
    ensures parse(s) == parse(end)
  {
    var named := s.(pos := s.pos + |name|, state := RULE_SEPARATOR, name := name);
    NameRead(g, parse, s, name, named);
    GapRead(g, parse, named, gap, end);
  }

  lemma {:induction false} ParametersRead(g: string, parse: Cursor -> Result<Rules>, s: Cursor, parameters: seq<SpelledParameter>,
                                          end: Cursor)
    requires Reader(g, parse) == Met && s.state == RULE_SEPARATOR && s.rule == EMPTY_RULE && s.pos <= |g| && |parameters| <= 1
    requires (forall i :: 0 <= i < |parameters| ==> ParameterSpelled(parameters[i])) && At(g, s.pos, ParametersText(parameters))
    requires end == s.(pos := s.pos + |ParametersText(parameters)|, rule := Rule(NamesOf(parameters), []))
    ensures end.pos <= |g| && parse(s) == parse(end)
  {
    if parameters != [] {
      assert NamesOf(parameters) == [parameters[0].name] && ParameterSpelled(parameters[0]);
      ParameterRead(g, parse, s, parameters[0], end);
    }
  }

  /** The parameters and the arrow stand one behind the other. */
  ghost function SeparatorPlace(g: string, c: nat, parameters: string, rest: string): Condition {
    if At(g, c, parameters) && At(g, c + |parameters|, "<-" + rest) then Met else Unmet
  }

  /** The name and the gap behind it stand one behind the other, and the name ends where its text ends. */
  ghost function NamePlace(g: string, c: nat, name: string, gap: string): Condition {
    var e := c + |name|;
    if At(g, c, name) && e < |g| && !IsAlphaNumeric(g[e]) && At(g, e, gap) then Met else Unmet
  }

  lemma {:induction false} HeadStands(g: string, c: nat, text: string, name: string, gap: string, parameters: string, rest: string)
    requires text == name + (gap + (parameters + ("<-" + rest))) && At(g, c, text)
    requires IsGap(gap, true) && (parameters == "" || parameters[0] == '(')
    ensures NamePlace(g, c, name, gap) == Met
  {
    AtSplit(g, c, name, gap + (parameters + ("<-" + rest)));
    NameEnds(g, c + |name|, gap, parameters, rest);
    AtSplit(g, c + |name|, gap, parameters + ("<-" + rest));
  }

  lemma {:induction false} SeparatorStands(g: string, c: nat, text: string, name: string, gap: string, parameters: string, rest: string)
    requires text == name + (gap + (parameters + ("<-" + rest))) && At(g, c, text)
    ensures SeparatorPlace(g, c + |name| + |gap|, parameters, rest) == Met
    ensures |text| == |name| + |gap| + |parameters| + 2 + |rest|
  {
    FourParts(g, c, name, gap, parameters, "<-" + rest);
  }

  lemma {:induction false} HeadPlaces(g: string, c: nat, r: SpelledRule)
    requires At(g, c, HeadText(r)) && IsGap(r.afterName, true)
    ensures NamePlace(g, c, r.name, r.afterName) == Met
    ensures SeparatorPlace(g, c + |r.name| + |r.afterName|, ParametersText(r.parameters), r.afterArrow) == Met
    ensures |HeadText(r)| == |r.name| + |r.afterName| + |ParametersText(r.parameters)| + 2 + |r.afterArrow|
  {
    HeadStands(g, c, HeadText(r), r.name, r.afterName, ParametersText(r.parameters), r.afterArrow);
    SeparatorStands(g, c, HeadText(r), r.name, r.afterName, ParametersText(r.parameters), r.afterArrow);
  }

  /** The name, the parameter and the arrow of a rule. */
  lemma {:induction false} HeadRead(g: string, parse: Cursor -> Result<Rules>, s: Cursor, r: SpelledRule, q: nat, end: Cursor)
    requires Reader(g, parse) == Met && HeadSpelled(r) && s.state == RULE_NAME && s.rule == EMPTY_RULE
    requires NamePlace(g, s.pos, r.name, r.afterName) == Met
    requires SeparatorPlace(g, s.pos + |r.name| + |r.afterName|, ParametersText(r.parameters), r.afterArrow) == Met
    requires q == s.pos + |r.name| + |r.afterName| + |ParametersText(r.parameters)|
    requires end == Cursor(q + 2 + |r.afterArrow|, RULE_DEFINITION, s.rules, r.name, Rule(NamesOf(r.parameters), []), s.brackets, s.inOr)
    ensures end.pos <= |g| && parse(s) == parse(end)
  {
    var spaced := s.(pos := s.pos + |r.name| + |r.afterName|, state := RULE_SEPARATOR, name := r.name);
    NameAndGapRead(g, parse, s, r.name, r.afterName, spaced);
    SeparatorRead(g, parse, spaced, r, q, end);
  }

  lemma {:induction false} WholeHeadRead(g: string, parse: Cursor -> Result<Rules>, s: Cursor, r: SpelledRule, end: Cursor)
    requires Reader(g, parse) == Met && HeadSpelled(r) && s.state == RULE_NAME && s.rule == EMPTY_RULE && At(g, s.pos, HeadText(r))
    requires end == Cursor(s.pos + |HeadText(r)|, RULE_DEFINITION, s.rules, r.name, Rule(NamesOf(r.parameters), []), s.brackets, s.inOr)
    ensures end.pos <= |g| && parse(s) == parse(end)
  {
    HeadPlaces(g, s.pos, r);
    HeadRead(g, parse, s, r, s.pos + |r.name| + |r.afterName| + |ParametersText(r.parameters)|, end);
  }

  lemma {:induction false} SeparatorRead(g: string, parse: Cursor -> Result<Rules>, s: Cursor, r: SpelledRule, q: nat, end: Cursor)
    requires Reader(g, parse) == Met && HeadSpelled(r) && s.state == RULE_SEPARATOR && s.rule == EMPTY_RULE
    requires SeparatorPlace(g, s.pos, ParametersText(r.parameters), r.afterArrow) == Met && q == s.pos + |ParametersText(r.parameters)|
    requires end == s.(pos := q + 2 + |r.afterArrow|, state := RULE_DEFINITION, rule := Rule(NamesOf(r.parameters), []))
    ensures end.pos <= |g| && parse(s) == parse(end)
  {
    var parameterized := s.(pos := q, rule := Rule(NamesOf(r.parameters), []));
    ParametersRead(g, parse, s, r.parameters, parameterized);
    ArrowRead(g, parse, parameterized, r.afterArrow, end);
  }

  // ----- rules --------------------------------------------------------------------------------------------

  /** The state between rules. */
  predicate Between(s: Cursor) {
    s.state == RULE_NAME && s.rule == EMPTY_RULE && s.brackets == 0 && !s.inOr && s.name == ""
  }

  /** The state after the last token and comment of a rule. */
  function Closing(s: Cursor, r: SpelledRule, pos: nat): Cursor {
    AfterTokens(s.(name := r.name, rule := RuleOf(r)), TokensOf(r.tokens), pos)
  }

  /** A rule is read up to its newline. */
  lemma {:induction false} RuleRead(g: string, parse: Cursor -> Result<Rules>, s: Cursor, r: SpelledRule, p: nat, q: nat, e: nat, end: nat)
    requires Reader(g, parse) == Met && Between(s) && RuleSpelled(r)
    requires At(g, s.pos, r.before) && p == s.pos + |r.before|
    requires At(g, p, HeadText(r)) && q == p + |HeadText(r)|
    requires At(g, q, TokensText(r.tokens)) && e == q + |TokensText(r.tokens)|
    requires At(g, e, r.comment) && end == e + |r.comment| && (end < |g| ==> IsNewline(g[end]))
    ensures end <= |g| && parse(s) == parse(Closing(s, r, end))
  {
    var head := s.(pos := p);
    var body := Cursor(q, RULE_DEFINITION, s.rules, r.name, Rule(NamesOf(r.parameters), []), 0, false);
    GapRead(g, parse, s, r.before, head);
    WholeHeadRead(g, parse, head, r, body);
    DefinitionRead(g, parse, body, r, e, end);
  }

  lemma {:induction false} DefinitionStands(g: string, c: nat, r: SpelledRule, e: nat, end: nat)
    requires At(g, c, TokensText(r.tokens)) && e == c + |TokensText(r.tokens)| && IsComment(r.comment)
    requires At(g, e, r.comment) && end == e + |r.comment| && (end < |g| ==> IsNewline(g[end]))
    ensures TokensPlace(g, c, r.tokens) == Met && e == StartOf(c, r.tokens, |r.tokens|)
  {
    TokensStand(g, c, r.tokens);
    if r.comment != "" {
      AtIndex(g, e, r.comment);
      assert g[e + 0] == '#';
    }
  }

  lemma {:induction false} DefinitionRead(g: string, parse: Cursor -> Result<Rules>, body: Cursor, r: SpelledRule, e: nat, end: nat)
    requires Reader(g, parse) == Met && RuleSpelled(r)
    requires body == Cursor(body.pos, RULE_DEFINITION, body.rules, r.name, Rule(NamesOf(r.parameters), []), 0, false)
    requires At(g, body.pos, TokensText(r.tokens)) && e == body.pos + |TokensText(r.tokens)|
    requires At(g, e, r.comment) && end == e + |r.comment| && (end < |g| ==> IsNewline(g[end]))
    ensures parse(body) == parse(Closing(body, r, end))
  {
    DefinitionStands(g, body.pos, r, e, end);
    TokensRead(g, parse, body, r.tokens, |r.tokens|);
    AfterAllTokens(body, r, e);
    CommentRead(g, parse, Closing(body, r, e), r.comment, Closing(body, r, end));
  }

  lemma {:induction false} AfterAllTokens(body: Cursor, r: SpelledRule, e: nat)
    requires e == StartOf(body.pos, r.tokens, |r.tokens|)
    requires body == Cursor(body.pos, RULE_DEFINITION, body.rules, r.name, Rule(NamesOf(r.parameters), []), 0, false)
    ensures AfterFirst(body, r.tokens, |r.tokens|) == Closing(body, r, e)
  {
    assert r.tokens[..|r.tokens|] == r.tokens;
  }

  /** The state after a rule. */
  function Added(s: Cursor, r: SpelledRule, pos: nat): Cursor {
    s.(pos := pos, rules := s.rules[r.name := RuleOf(r)])
  }

  /** A rule that is closed by its newline or by the end of the text. */
  lemma {:induction false} RuleAdded(g: string, parse: Cursor -> Result<Rules>, s: Cursor, r: SpelledRule, next: Cursor)
    requires Reader(g, parse) == Met
    requires Between(s) && RuleSpelled(r) && At(g, s.pos, RuleText(r)) && next == Added(s, r, s.pos + |RuleText(r)|)
    requires r.newline == "" ==> next.pos == |g|
    ensures parse(s) == if r.name in s.rules then Err("duplicate rule name") else parse(next)
  {
    var p := s.pos + |r.before|;
    var q := p + |HeadText(r)|;
    var e := q + |TokensText(r.tokens)|;
    var end := e + |r.comment|;
    FiveParts(g, s.pos, RuleText(r), r.before, HeadText(r), TokensText(r.tokens), r.comment, r.newline, p, q, e, end);
    RuleRead(g, parse, s, r, p, q, e, end);
    RuleCloses(g, parse, s, r, end, next);
  }

  lemma {:induction false} FiveParts(g: string, c: nat, text: string, before: string, head: string, tokens: string, comment: string,
                                     newline: string, p: nat, q: nat, e: nat, end: nat)
    requires text == before + (head + (tokens + (comment + newline))) && At(g, c, text)
    requires newline == "" || (|newline| == 1 && IsNewline(newline[0]))
    requires p == c + |before| && q == p + |head| && e == q + |tokens| && end == e + |comment|
    ensures At(g, c, before) && At(g, p, head) && At(g, q, tokens) && At(g, e, comment) && c + |text| == end + |newline|
    ensures newline != "" ==> end < |g| && IsNewline(g[end])
  {
    FourParts(g, c, before, head, tokens, comment + newline);
    AtSplit(g, e, comment, newline);
    if newline != "" {
      AtIndex(g, end, newline);
      assert g[end + 0] == newline[0];
    }
  }

  lemma {:induction false} RuleCloses(g: string, parse: Cursor -> Result<Rules>, s: Cursor, r: SpelledRule, end: nat, next: Cursor)
    requires Reader(g, parse) == Met && Between(s) && RuleSpelled(r) && next == Added(s, r, end + |r.newline|)
    requires if r.newline == "" then end == |g| else end < |g| && IsNewline(g[end])
    ensures parse(Closing(s, r, end)) == if r.name in s.rules then Err("duplicate rule name") else parse(next)
  {
    var closing := Closing(s, r, end);
    assert RuleOf(r).tokens != [];
    if r.newline != "" {
      assert EndsRule(g, closing);
      assert StepText(g, closing) == if r.name in s.rules then Err("duplicate rule name") else Ok(next);
    }
  }

  /** The names are new and differ. */
  predicate NewNames(rs: seq<SpelledRule>, rules: Rules) {
    DistinctNames(rs) && forall i :: 0 <= i < |rs| ==> rs[i].name !in rules
  }

  lemma {:induction false} NewNamesCons(rs: seq<SpelledRule>, rules: Rules)
    requires rs != []
    ensures NewNames(rs, rules) <==> rs[0].name !in rules && NewNames(rs[1..], rules[rs[0].name := RuleOf(rs[0])])
  {
    var rest, more := rs[1..], rules[rs[0].name := RuleOf(rs[0])];
    if rs[0].name !in rules && NewNames(rest, more) {
      forall i, j | 0 <= i < j < |rs|
        ensures rs[i].name != rs[j].name
      {
        assert rs[j] == rest[j - 1] && (i > 0 ==> rs[i] == rest[i - 1]);
      }
      assert forall i :: 0 < i < |rs| ==> rs[i] == rest[i - 1];
    }
    if NewNames(rs, rules) {
      assert forall i :: 0 <= i < |rest| ==> rest[i] == rs[i + 1] && rs[0].name != rs[i + 1].name;
    }
  }

  /** Adding the rules one by one. */
  function AddAll(rules: Rules, rs: seq<SpelledRule>): Result<Rules>
    decreases |rs|
  {
    if rs == [] then Ok(rules)
    else if rs[0].name in rules then Err("duplicate rule name")
    else AddAll(rules[rs[0].name := RuleOf(rs[0])], rs[1..])
  }

  lemma {:induction false} AddedAll(rules: Rules, rs: seq<SpelledRule>)
    ensures AddAll(rules, rs) == if NewNames(rs, rules) then Ok(rules + RulesOf(rs)) else Err("duplicate rule name")
    decreases |rs|
  {
    if rs == [] {
      assert rules + map[] == rules;
    } else {
      NewNamesCons(rs, rules);
      RulesOfCons(rules, rs);
      AddedAll(rules[rs[0].name := RuleOf(rs[0])], rs[1..]);
    }
  }

  /** Goes on at `end` with the rules read. */
  function GoOn(parse: Cursor -> Result<Rules>, s: Cursor, read: Result<Rules>, end: nat): Result<Rules> {
    if read.Ok? then parse(s.(pos := end, rules := read.value)) else read
  }

  /** From `c` on this is the rest of the text. */
  ghost function Rests(g: string, c: nat, rest: string): Condition {
    if At(g, c, rest) && c + |rest| == |g| then Met else Unmet
  }

  /** One rule of this text is read. */
  ghost predicate ReadsRule(g: string, parse: Cursor -> Result<Rules>, text: SpelledRule -> string, ok: SpelledRule -> bool, s: Cursor,
                            r: SpelledRule, rest: string, next: Cursor)
  {
    Between(s) && ok(r) && Rests(g, s.pos, text(r) + rest) == Met && (r.newline == "" ==> rest == "") &&
    next == Added(s, r, s.pos + |text(r)|) ==>
      && Between(next) && Rests(g, next.pos, rest) == Met
      && parse(s) == if r.name in s.rules then Err("duplicate rule name") else parse(next)
  }

  ghost predicate ReadsRules(g: string, parse: Cursor -> Result<Rules>, text: SpelledRule -> string, ok: SpelledRule -> bool) {
    forall s, r, rest, next :: ReadsRule(g, parse, text, ok, s, r, rest, next)
  }

  lemma {:induction false} RulesRead(g: string, parse: Cursor -> Result<Rules>, text: SpelledRule -> string, ok: SpelledRule -> bool,
                                     s: Cursor, rs: seq<SpelledRule>, ending: string)
    requires ReadsRules(g, parse, text, ok) && AllOk(rs, ok, ending)
    requires Between(s) && Rests(g, s.pos, RulesText(rs, text) + ending) == Met
    ensures |ending| <= |g| && parse(s) == GoOn(parse, s, AddAll(s.rules, rs), |g| - |ending|)
    decreases |rs|
  {
    if rs == [] {
      NoRulesRead(g, parse, s, ending);
    } else {
      var rest, next := RulesText(rs[1..], text) + ending, Added(s, rs[0], s.pos + |text(rs[0])|);
      AllOkTail(rs, ok, ending, text);
      assert RulesText(rs, text) + ending == text(rs[0]) + rest;
      OneRuleRead(g, parse, text, ok, s, rs[0], rest, next);
      RulesRead(g, parse, text, ok, next, rs[1..], ending);
      GoOnCons(parse, s, rs, next, |g| - |ending|);
    }
  }

  lemma {:induction false} NoRulesRead(g: string, parse: Cursor -> Result<Rules>, s: Cursor, ending: string)
    requires Rests(g, s.pos, "" + ending) == Met
    ensures |ending| <= |g| && parse(s) == GoOn(parse, s, Ok(s.rules), |g| - |ending|)
  {
    assert s == s.(pos := |g| - |ending|, rules := s.rules);
  }

  lemma {:induction false} GoOnCons(parse: Cursor -> Result<Rules>, s: Cursor, rs: seq<SpelledRule>, next: Cursor, end: nat)
    requires rs != [] && next == Added(s, rs[0], next.pos)
    ensures GoOn(parse, s, AddAll(s.rules, rs), end)
            == if rs[0].name in s.rules then Err("duplicate rule name") else GoOn(parse, next, AddAll(next.rules, rs[1..]), end)
  {
  }

  lemma {:induction false} OneRuleRead(g: string, parse: Cursor -> Result<Rules>, text: SpelledRule -> string, ok: SpelledRule -> bool,
                                       s: Cursor, r: SpelledRule, rest: string, next: Cursor)
    requires ReadsRules(g, parse, text, ok) && Between(s) && ok(r) && Rests(g, s.pos, text(r) + rest) == Met
    requires (r.newline == "" ==> rest == "") && next == Added(s, r, s.pos + |text(r)|)
    ensures Between(next) && Rests(g, next.pos, rest) == Met
    ensures parse(s) == if r.name in s.rules then Err("duplicate rule name") else parse(next)
  {
    assert ReadsRule(g, parse, text, ok, s, r, rest, next);
  }

  /** A rule without newline is the last one, and nothing follows. */
  predicate AllOk(rs: seq<SpelledRule>, ok: SpelledRule -> bool, ending: string) {
    forall i :: 0 <= i < |rs| ==> ok(rs[i]) && (rs[i].newline == "" ==> i == |rs| - 1 && ending == "")
  }

  lemma {:induction false} AllOkTail(rs: seq<SpelledRule>, ok: SpelledRule -> bool, ending: string, text: SpelledRule -> string)
    requires rs != [] && AllOk(rs, ok, ending)
    ensures ok(rs[0]) && (rs[0].newline == "" ==> RulesText(rs[1..], text) + ending == "") && AllOk(rs[1..], ok, ending)
  {
    assert forall i :: 0 <= i < |rs[1..]| ==> rs[1..][i] == rs[i + 1];
  }

  lemma {:induction false} RestAfter(g: string, c: nat, text: string, rest: string)
    requires Rests(g, c, text + rest) == Met
    ensures At(g, c, text) && Rests(g, c + |text|, rest) == Met && c + |text| + |rest| == |g|
  {
    AtSplit(g, c, text, rest);
  }

  lemma {:induction false} FirstRuleRead(g: string, parse: Cursor -> Result<Rules>, s: Cursor, r: SpelledRule, rest: string, next: Cursor)
    requires Reader(g, parse) == Met && Between(s) && RuleSpelled(r)
    requires Rests(g, s.pos, RuleText(r) + rest) == Met && (r.newline == "" ==> rest == "") && next == Added(s, r, s.pos + |RuleText(r)|)
    ensures Between(next) && Rests(g, next.pos, rest) == Met
    ensures parse(s) == if r.name in s.rules then Err("duplicate rule name") else parse(next)
  {
    RestAfter(g, s.pos, RuleText(r), rest);
    RuleAdded(g, parse, s, r, next);
  }

  lemma {:induction false} RulesOfCons(rules: Rules, rs: seq<SpelledRule>)
    requires rs != []
    ensures rules[rs[0].name := RuleOf(rs[0])] + RulesOf(rs[1..]) == rules + RulesOf(rs)
    decreases |rs|
  {
    var first := rules[rs[0].name := RuleOf(rs[0])];
    if |rs| > 1 {
      RulesOfCons(rules, Front(rs));
      assert Front(rs)[1..] == Front(rs[1..]) && Last(rs[1..]) == Last(rs);
      UpdateRight(first, RulesOf(Front(rs[1..])), Last(rs).name, RuleOf(Last(rs)));
      UpdateRight(rules, RulesOf(Front(rs)), Last(rs).name, RuleOf(Last(rs)));
    } else {
      assert RulesOf(rs[1..]) == map[] && Front(rs) == [];
      UpdateRight(rules, map[], rs[0].name, RuleOf(rs[0]));
      assert rules + map[] == rules && first + map[] == first;
    }
  }

  lemma UpdateRight<K, V>(a: map<K, V>, b: map<K, V>, k: K, v: V)
    ensures a + b[k := v] == (a + b)[k := v]
  {
  }

  /** After the rules: blanks and a last comment. */
  lemma {:induction false} EndingRead(g: string, parse: Cursor -> Result<Rules>, s: Cursor, gap: string, comment: string)
    requires Reader(g, parse) == Met && Between(s) && IsGap(gap, true) && IsComment(comment)
    requires At(g, s.pos, gap) && At(g, s.pos + |gap|, comment) && s.pos + |gap| + |comment| == |g|
    ensures parse(s) == Ok(s.rules)
  {
    GapRead(g, parse, s, gap, s.(pos := s.pos + |gap|));
    CommentRead(g, parse, s.(pos := s.pos + |gap|), comment, s.(pos := |g|));
  }

  lemma {:induction false} EndingAt(g: string, rules: string, ending: string)
    requires g == rules + ending
    ensures Rests(g, 0, rules + ending) == Met && At(g, |g| - |ending|, ending)
  {
    AtSplit(g, 0, rules, ending);
  }

  lemma {:induction false} EachRuleRead(g: string, parse: Cursor -> Result<Rules>, ok: SpelledRule -> bool)
    requires Reader(g, parse) == Met && forall r :: ok(r) ==> RuleSpelled(r)
    ensures ReadsRules(g, parse, RuleText, ok)
  {
    forall s: Cursor, r: SpelledRule, rest: string, next: Cursor
      ensures ReadsRule(g, parse, RuleText, ok, s, r, rest, next)
    {
      if Between(s) && ok(r) && Rests(g, s.pos, RuleText(r) + rest) == Met && (r.newline == "" ==> rest == "") &&
         next == Added(s, r, s.pos + |RuleText(r)|) {
        FirstRuleRead(g, parse, s, r, rest, next);
      }
    }
  }

  lemma {:induction false} EndingResult(g: string, parse: Cursor -> Result<Rules>, text: string, gap: string, comment: string, rules: Rules)
    requires Reader(g, parse) == Met && g == text + (gap + comment) && IsGap(gap, true) && IsComment(comment)
    ensures parse(START.(pos := |text|, rules := rules)) == Ok(rules)
  {
    EndingAt(g, text, gap + comment);
    AtSplit(g, |text|, gap, comment);
    EndingRead(g, parse, START.(pos := |text|, rules := rules), gap, comment);
  }

  lemma {:induction false} RulesThenEnding(g: string, parse: Cursor -> Result<Rules>, text: SpelledRule -> string, ok: SpelledRule -> bool,
                                           G: SpelledGrammar)
    requires Reader(g, parse) == Met && ReadsRules(g, parse, text, ok)
    requires AllOk(G.rules, ok, G.after + G.comment) && IsGap(G.after, true) && IsComment(G.comment)
    requires g == RulesText(G.rules, text) + (G.after + G.comment)
    ensures parse(START) == AddAll(map[], G.rules)
  {
    var added, before := AddAll(map[], G.rules), RulesText(G.rules, text);
    EndingAt(g, before, G.after + G.comment);
    RulesRead(g, parse, text, ok, START, G.rules, G.after + G.comment);
    if added.Ok? {
      EndingResult(g, parse, before, G.after, G.comment, added.value);
    }
  }

  lemma {:induction false} SpelledAreOk(G: SpelledGrammar, ok: SpelledRule -> bool)
    requires GrammarSpelled(G) && forall r :: RuleSpelled(r) ==> ok(r)
    ensures AllOk(G.rules, ok, G.after + G.comment)
  {
    forall i | 0 <= i < |G.rules|
      ensures ok(G.rules[i]) && (G.rules[i].newline == "" ==> i == |G.rules| - 1 && G.after + G.comment == "")
    {
      assert RuleSpelled(G.rules[i]);
    }
  }

  lemma {:induction false} GrammarRead(g: string, parse: Cursor -> Result<Rules>, G: SpelledGrammar)
    requires Reader(g, parse) == Met && GrammarSpelled(G) && g == GrammarText(G)
    ensures parse(START) == if DistinctNames(G.rules) then Ok(RulesOf(G.rules)) else Err("duplicate rule name")
  {
    ghost var ok := r => RuleSpelled(r);
    EachRuleRead(g, parse, ok);
    SpelledAreOk(G, ok);
    RulesThenEnding(g, parse, RuleText, ok, G);
    AddedAll(map[], G.rules);
    assert map[] + RulesOf(G.rules) == RulesOf(G.rules);
  }

  /** The round trip: however a grammar is spelled, its rules are read back, unless two have the same name. */
  lemma {:induction false} RoundTrip(G: SpelledGrammar)
    requires GrammarSpelled(G)
    ensures Parse(GrammarText(G), START) == if DistinctNames(G.rules) then Ok(RulesOf(G.rules)) else Err("duplicate rule name")
  {
    ParseFollows(GrammarText(G));
    GrammarRead(GrammarText(G), ParseFrom(GrammarText(G)), G);
  }

  // ----- patterns as text -----------------------------------------------------------------------------------

  lemma BalancedAppend(a: seq<PegToken>, b: seq<PegToken>, open: nat)
    requires Brackets(a, open) == Brackets(b, open) == Some(open) && b != [] && Last(b) != Operator('/')
    ensures Brackets(a + b, open) == Some(open) && a + b != [] && Last(a + b) != Operator('/')
  {
    BracketsAppend(a, b, open);
  }

  lemma ChoiceBalanced(a: seq<PegToken>, b: seq<PegToken>, open: nat)
    requires Brackets(a, open) == Brackets(b, open) == Some(open) && b != [] && Last(b) != Operator('/')
    ensures var ts := a + [Operator('/')] + b;
            Brackets(ts, open) == Some(open) && ts != [] && Last(ts) != Operator('/')
  {
    BracketsAppend(a, [Operator('/')], open);
    BalancedAppend(a + [Operator('/')], b, open);
  }

  /** The text of a pattern closes what it opens and does not end in '/'. */
  lemma {:induction false} PrintBalanced(p: Pattern, open: nat)
    requires Writable(p)
    ensures Brackets(Print(p), open) == Some(open) && Print(p) != [] && Last(Print(p)) != Operator('/')
    decreases p, 1
  {
    match p
    case PKeyword(_) =>
    case PReference(_) =>
    case PGroup(items) => BracketBalanced(Operator('('), items, open);
    case PCall(name, items) => BracketBalanced(FunctionCall(name), items, open);
    case POptional(PRepeat(q)) =>
      assert q < p;
      PrintBalanced(q, open);
      BalancedAppend(Print(q), [Operator('*')], open);
    case POptional(q) =>
      PrintBalanced(q, open);
      BalancedAppend(Print(q), [Operator('?')], open);
    case PChoice(ps) =>
      PrintBinaryChoice(ps[0], ps[1]);
      assert ps == [ps[0], ps[1]];
      PrintBalanced(ps[0], open);
      PrintBalanced(ps[1], open);
      ChoiceBalanced(Print(ps[0]), Print(ps[1]), open);
  }

  lemma {:induction false} BracketBalanced(start: PegToken, items: seq<Pattern>, open: nat)
    requires Opens(start) && WritableAll(items)
    ensures var ts := [start] + PrintAll(items) + [Operator(')')];
            Brackets(ts, open) == Some(open) && Last(ts) != Operator('/')
    decreases items, 1
  {
    PrintAllBalanced(items, open + 1);
    BracketsAppend([start], PrintAll(items), open);
    BracketsAppend([start] + PrintAll(items), [Operator(')')], open);
  }

  lemma {:induction false} PrintAllBalanced(items: seq<Pattern>, open: nat)
    requires WritableAll(items)
    ensures Brackets(PrintAll(items), open) == Some(open)
    ensures items != [] ==> PrintAll(items) != [] && Last(PrintAll(items)) != Operator('/')
    decreases items, 0
  {
    if items != [] {
      PrintAllBalanced(Front(items), open);
      PrintBalanced(Last(items), open);
      BalancedAppend(PrintAll(Front(items)), Print(Last(items)), open);
    }
  }

  /** However the text of patterns is spelled, it is read as rules with those patterns. */
  lemma {:induction false} TextMeansPatterns(G: SpelledGrammar, bodies: seq<seq<Pattern>>)
    requires LinesEnd(G) && DistinctNames(G.rules) && |bodies| == |G.rules|
    requires forall i :: 0 <= i < |bodies| ==> SpellsBody(G.rules[i], bodies[i])
    ensures var read := Parse(GrammarText(G), START);
            read.Ok? &&
            forall i :: 0 <= i < |bodies| ==>
              var r := G.rules[i];
              r.name in read.value && read.value[r.name].parameters == RuleOf(r).parameters && Body(read.value[r.name]) == Ok(bodies[i])
  {
    forall i | 0 <= i < |bodies|
      ensures RuleSpelled(G.rules[i]) && Body(RuleOf(G.rules[i])) == Ok(bodies[i])
    {
      assert SpellsBody(G.rules[i], bodies[i]);
      PrintAllBalanced(bodies[i], 0);
      BodyOfPrint(RuleOf(G.rules[i]).parameters, bodies[i]);
    }
    RoundTrip(G);
    forall i | 0 <= i < |bodies|
      ensures G.rules[i].name in RulesOf(G.rules) && RulesOf(G.rules)[G.rules[i].name] == RuleOf(G.rules[i])
    {
      RulesOfAt(G.rules, i);
    }
  }

  ghost predicate SpellsBody(r: SpelledRule, items: seq<Pattern>) {
    SpellingOk(r) && items != [] && WritableAll(items) && TokensOf(r.tokens) == PrintAll(items)
  }

  lemma {:induction false} RulesOfAt(rs: seq<SpelledRule>, i: nat)
    requires i < |rs| && DistinctNames(rs)
    ensures rs[i].name in RulesOf(rs) && RulesOf(rs)[rs[i].name] == RuleOf(rs[i])
  {
    if i < |rs| - 1 {
      RulesOfAt(Front(rs), i);
    }
  }

  // ----- what a newline closes --------------------------------------------------------------------------------

  /** The counters of the loop describe the tokens of the rule that is being read. */
  predicate Consistent(s: Cursor) {
    (s.state == RULE_DEFINITION || (s.rule.tokens == [] && s.brackets == 0 && !s.inOr)) &&
    Brackets(s.rule.tokens, 0) == Some(s.brackets) &&
    (s.rule.tokens != [] ==> s.inOr == (Last(s.rule.tokens) == Operator('/'))) &&
    forall name :: name in s.rules ==> Closable(s.rules[name].tokens)
  }

  lemma StepIsConsistent(g: string, s: Cursor, next: Cursor)
    requires s.pos < |g| && Consistent(s) && StepText(g, s) == Ok(next)
    ensures Consistent(next)
  {
    if next.rule.tokens != s.rule.tokens && next.rule.tokens != [] {
      TokenIsConsistent(s, ScanToken(g, s.pos).value, next);
    }
  }

  lemma TokenIsConsistent(s: Cursor, scanned: Scanned, next: Cursor)
    requires Consistent(s) && s.state == RULE_DEFINITION && AddToken(s, scanned) == Ok(next)
    ensures Consistent(next)
  {
    BracketsAppend(s.rule.tokens, [scanned.token], 0);
    assert Brackets([], next.brackets) == Some(next.brackets);
  }

  /** The rule whose definition the end of the text closes. */
  function OpenRule(g: string, s: Cursor): Option<string>
    requires s.pos <= |g|
    decreases |g| - s.pos
  {
    if s.pos == |g| then (if s.state == RULE_DEFINITION then Some(s.name) else None)
    else
      match StepText(g, s)
      case Ok(next) => OpenRule(g, next)
      case Err(_) => None
  }

  /** Every rule but the one that the end of the text closes has balanced brackets and does not end in '/'. */
  lemma {:induction false} RulesAreClosable(g: string, s: Cursor)
    requires s.pos <= |g| && Consistent(s) && Parse(g, s).Ok?
    ensures forall name :: name in Parse(g, s).value && OpenRule(g, s) != Some(name) ==> Closable(Parse(g, s).value[name].tokens)
    decreases |g| - s.pos
  {
    if s.pos < |g| {
      var next := StepText(g, s).value;
      StepIsConsistent(g, s, next);
      RulesAreClosable(g, next);
    }
  }

  // ----- choices with one alternative -------------------------------------------------------------------------

  /** How often a bracket closes right after '/'. */
  function LoneChoices(tokens: seq<PegToken>, frames: seq<Frame>): nat
    requires frames != []
  {
    if tokens == [] then 0
    else
      match Step(tokens[0], frames)
      case Ok(next) =>
        (if tokens[0] == Operator(')') && Last(frames).awaiting && Last(frames).items != [] then 1 else 0) + LoneChoices(tokens[1..], next)
      case Err(_) => 0
  }

  /** Such a bracket does not close what the reader of the text counts it for. */
  lemma {:induction false} OpenFrames(tokens: seq<PegToken>, frames: seq<Frame>, open: nat)
    requires frames != [] && Elaborate(tokens, frames).Ok? && Brackets(tokens, open).Some?
    ensures |Elaborate(tokens, frames).value| + open == |frames| + Brackets(tokens, open).value + LoneChoices(tokens, frames)
    decreases |tokens|
  {
    if tokens != [] {
      var next := Step(tokens[0], frames).value;
      OpenFrames(tokens[1..], next, if Opens(tokens[0]) then open + 1 else if tokens[0] == Operator(')') then open - 1 else open);
    }
  }

  /** The reader of the text never counts a bracket that closes too much, so a rule that it has read and that compiles
      has no doubled choice. */
  lemma RulesHaveNoLoneChoice(rule: Rule)
    requires Brackets(rule.tokens, 0).Some? && Body(rule).Ok?
    ensures LoneChoices(rule.tokens, ROOT) == 0
  {
    OpenFrames(rule.tokens, ROOT, 0);
  }

  /** The brackets of `( 'a' / ) )`: the choice with one alternative is there twice. */
  lemma LoneChoiceIsDoubled()
    ensures var lone := PChoice([PKeyword("a")]);
            Body(Rule([], [Operator('('), Literal("a"), Operator('/'), Operator(')'), Operator(')')])) == Ok([PGroup([lone, lone])])
  {
    var lone, a, root := PChoice([PKeyword("a")]), PKeyword("a"), Frame("", [], false);
    var begun, placed, awaiting := [root, root], [root, Frame("", [a], false)], [root, Frame("", [a], true)];
    var doubled := [root, Frame("", [lone, lone], false)];
    assert ROOT + [root] == begun;
    assert Front(begun) == Front(placed) == Front(awaiting) == Front(doubled) == [root];
    assert [] + [a] == [a] && Front([a]) + [lone, lone] == [lone, lone];
    assert Step(Literal("a"), begun) == Ok(placed) by {
      assert Place(root, a) == Frame("", [a], false) && PlaceTop(begun, a) == [root] + [Place(root, a)];
      assert placed == [root] + [Frame("", [a], false)];
    }
    assert Step(Operator('/'), placed) == Ok(awaiting) by {
      assert Last(placed) == Frame("", [a], false) && awaiting == Front(placed) + [Last(placed).(awaiting := true)];
    }
    ElaborateThree(Operator('('), Literal("a"), Operator('/'), ROOT, begun, placed, awaiting);
    assert Step(Operator(')'), awaiting) == Ok(doubled) by {
      assert doubled == [root] + [Frame("", Front([a]) + [lone, lone], false)];
    }
    assert PlaceTop([root], PGroup([lone, lone])) == [Frame("", [PGroup([lone, lone])], false)] by {
      assert Front([root]) == [] && [] + [PGroup([lone, lone])] == [PGroup([lone, lone])];
    }
    ElaborateTwo(Operator(')'), Operator(')'), awaiting, doubled, [Frame("", [PGroup([lone, lone])], false)]);
    var tokens := [Operator('('), Literal("a"), Operator('/')];
    ElaborateAppend(tokens, [Operator(')'), Operator(')')], ROOT);
    assert tokens + [Operator(')'), Operator(')')] == [Operator('('), Literal("a"), Operator('/'), Operator(')'), Operator(')')];
  }

  lemma ElaborateTwo(t: PegToken, u: PegToken, a: seq<Frame>, b: seq<Frame>, c: seq<Frame>)
    requires a != [] && b != [] && Step(t, a) == Ok(b) && Step(u, b) == Ok(c)
    ensures Elaborate([t, u], a) == Ok(c)
  {
    assert [t, u][1..] == [u] && [u][1..] == [];
    assert Elaborate([u], b) == Elaborate([], c);
  }

  lemma ElaborateThree(t: PegToken, u: PegToken, v: PegToken, a: seq<Frame>, b: seq<Frame>, c: seq<Frame>, d: seq<Frame>)
    requires a != [] && b != [] && c != [] && Step(t, a) == Ok(b) && Step(u, b) == Ok(c) && Step(v, c) == Ok(d)
    ensures Elaborate([t, u, v], a) == Ok(d)
  {
    assert [t, u, v][1..] == [u, v];
    ElaborateTwo(u, v, b, c, d);
  }
}
