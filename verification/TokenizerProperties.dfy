/** Properties of the tokenizer: nothing is lost, and joined tokens are read back as they were. */
module TokenizerProperties {
  import opened Common
  import opened Tokenizer

  // ----- conservation -----------------------------------------------------------------------------------

  datatype Kind = WHITESPACE | SEMICOLON | COMMENT | TOKEN | OPEN_QUOTE | OPEN_COMMENT

  /** A stretch of the input and what it is taken for. */
  datatype Piece = Piece(kind: Kind, text: string)

  /** The input from `i` on, cut into pieces. An unterminated string loses its opening quote. */
  function Pieces(s: string, i: nat): seq<Piece>
    requires i <= |s|
    decreases |s| - i
  {
    if i == |s| then []
    else
      match Scan(s, i)
      case Blank(end) => [Piece(WHITESPACE, s[i..end])] + Pieces(s, end)
      case Separator(end) => [Piece(SEMICOLON, s[i..end])] + Pieces(s, end)
      case Comment(end) => [Piece(COMMENT, s[i..end])] + Pieces(s, end)
      case Word(end) => [Piece(TOKEN, s[i..end])] + Pieces(s, end)
      case Rest(state) =>
        if state == SINGLE_LINE_COMMENT || state == MULTI_LINE_COMMENT then [Piece(OPEN_COMMENT, s[i..])]
        else if state == STRING_LITERAL then
          [Piece(OPEN_QUOTE, s[i..i + 1])] + (if i + 1 == |s| then [] else [Piece(TOKEN, s[i + 1..])])
        else [Piece(TOKEN, s[i..])]
  }

  function Texts(ps: seq<Piece>): string {
    if ps == [] then "" else ps[0].text + Texts(ps[1..])
  }

  lemma FirstPiece(s: string, i: nat, end: nat)
    requires i < |s| && !Scan(s, i).Rest? && Scan(s, i).end == end
    ensures Pieces(s, i) != [] && Pieces(s, i)[0].text == s[i..end] && Pieces(s, i)[1..] == Pieces(s, end)
  {
  }

  lemma LastPieces(s: string, i: nat)
    requires i < |s| && Scan(s, i).Rest?
    ensures Texts(Pieces(s, i)) == s[i..]
  {
    if Scan(s, i).state == STRING_LITERAL {
      assert s[i..] == s[i..i + 1] + s[i + 1..];
      if i + 1 < |s| {
        assert Pieces(s, i)[1..] == [Piece(TOKEN, s[i + 1..])];
        assert Texts([Piece(TOKEN, s[i + 1..])]) == s[i + 1..] + "";
      }
    } else {
      assert Pieces(s, i)[1..] == [];
      assert Texts(Pieces(s, i)) == s[i..] + "";
    }
  }

  /** The pieces are the whole input, in order and without overlap. */
  lemma {:induction false} PiecesAreTheInput(s: string, i: nat)
    requires i <= |s|
    ensures Texts(Pieces(s, i)) == s[i..]
    decreases |s| - i
  {
    if i < |s| {
      if Scan(s, i).Rest? {
        LastPieces(s, i);
      } else {
        var end := Scan(s, i).end;
        FirstPiece(s, i, end);
        PiecesAreTheInput(s, end);
        assert s[i..] == s[i..end] + s[end..];
      }
    }
  }

  /** What is dropped is whitespace, a semicolon, a comment or one opening quote; a token is never
      empty. */
  predicate WellShaped(p: Piece) {
    match p.kind
    case TOKEN => p.text != ""
    case WHITESPACE => |p.text| == 1 && IsSpace(p.text[0])
    case SEMICOLON => p.text == ";"
    case OPEN_QUOTE => p.text == "'"
    case OPEN_COMMENT => StartsAt(p.text, 0, "--") || StartsAt(p.text, 0, "/*")
    case COMMENT =>
      (StartsAt(p.text, 0, "--") && IsNewline(p.text[|p.text| - 1]) &&
       forall k :: 0 <= k < |p.text| - 1 ==> !IsNewline(p.text[k])) ||
      (|p.text| >= 4 && StartsAt(p.text, 0, "/*") && StartsAt(p.text, |p.text| - 2, "*/") &&
       forall k :: 2 <= k < |p.text| - 2 ==> !StartsAt(p.text, k, "*/"))
  }

  /** Where a comment that is being read ends. */
  lemma {:induction false} LineCommentEnds(s: string, start: nat, i: nat, end: nat)
    requires start < i && Munch(s, SINGLE_LINE_COMMENT, start, i) == Comment(end)
    ensures i < end <= |s| && IsNewline(s[end - 1]) && forall k :: i <= k < end - 1 ==> !IsNewline(s[k])
    decreases |s| - i
  {
    if !IsNewline(s[i]) {
      LineCommentEnds(s, start, i + 1, end);
    }
  }

  lemma {:induction false} BlockCommentEnds(s: string, start: nat, i: nat, end: nat)
    requires start < i && Munch(s, MULTI_LINE_COMMENT, start, i) == Comment(end)
    ensures i + 2 <= end <= |s| && StartsAt(s, end - 2, "*/") && forall k :: i <= k < end - 2 ==> !StartsAt(s, k, "*/")
    decreases |s| - i
  {
    if !StartsAt(s, i, "*/") {
      BlockCommentEnds(s, start, i + 1, end);
    }
  }

  lemma {:induction false} NoComment(s: string, state: State, start: nat, i: nat)
    requires start < i && state != STANDARD && Numeric(s, state, start)
    requires state != SINGLE_LINE_COMMENT && state != MULTI_LINE_COMMENT
    ensures !Munch(s, state, start, i).Comment?
    decreases |s| - i
  {
    if i < |s| {
      NoComment(s, state, start, i + 1);
      if i + 1 < |s| {
        NoComment(s, state, start, i + 2);
      }
    }
  }

  /** A comment is a line or a block comment. */
  lemma CommentKind(s: string, i: nat)
    requires i < |s| && Scan(s, i).Comment?
    ensures (StartsAt(s, i, "--") && Scan(s, i) == Munch(s, SINGLE_LINE_COMMENT, i, i + 2)) ||
            (StartsAt(s, i, "/*") && Scan(s, i) == Munch(s, MULTI_LINE_COMMENT, i, i + 2))
  {
    NoComment(s, STRING_LITERAL, i, i + 1);
    NoComment(s, QUOTED_IDENTIFIER, i, i + 1);
    NoComment(s, OPERATOR, i, i + 1);
    NoComment(s, KEYWORD, i, i + 1);
    if IsInitialNumber(s[i]) {
      NoComment(s, NUMERIC, i, i + 1);
    }
  }

  lemma LineCommentShape(s: string, i: nat, end: nat)
    requires StartsAt(s, i, "--") && Munch(s, SINGLE_LINE_COMMENT, i, i + 2) == Comment(end)
    ensures i < end <= |s| && WellShaped(Piece(COMMENT, s[i..end]))
  {
    var t := s[i..end];
    StartsAtPair(s, i, "--");
    LineCommentEnds(s, i, i + 2, end);
    StartsAtPair(t, 0, "--");
    forall k | 0 <= k < |t| - 1
      ensures !IsNewline(t[k])
    {
      assert t[k] == s[i + k];
    }
  }

  lemma BlockCommentShape(s: string, i: nat, end: nat)
    requires StartsAt(s, i, "/*") && Munch(s, MULTI_LINE_COMMENT, i, i + 2) == Comment(end)
    ensures i < end <= |s| && WellShaped(Piece(COMMENT, s[i..end]))
  {
    StartsAtPair(s, i, "/*");
    BlockCommentEnds(s, i, i + 2, end);
    PairsInSlice(s, i, end, 0, "/*");
    PairsInSlice(s, i, end, end - 2 - i, "*/");
    forall k | 2 <= k < end - i - 2
      ensures !StartsAt(s[i..end], k, "*/")
    {
      PairsInSlice(s, i, end, k, "*/");
      assert !StartsAt(s, i + k, "*/");
    }
  }

  lemma PairsInSlice(s: string, i: nat, end: nat, k: nat, op: string)
    requires |op| == 2 && i + k + 2 <= end <= |s|
    ensures StartsAt(s[i..end], k, op) <==> StartsAt(s, i + k, op)
  {
    StartsAtPair(s[i..end], k, op);
    StartsAtPair(s, i + k, op);
  }

  lemma {:induction false} PiecesAreWellShaped(s: string, i: nat)
    requires i <= |s|
    ensures forall k :: 0 <= k < |Pieces(s, i)| ==> WellShaped(Pieces(s, i)[k])
    decreases |s| - i
  {
    if i < |s| {
      var lexeme := Scan(s, i);
      if lexeme.Comment? {
        CommentKind(s, i);
        if StartsAt(s, i, "--") && lexeme == Munch(s, SINGLE_LINE_COMMENT, i, i + 2) {
          LineCommentShape(s, i, lexeme.end);
        } else {
          BlockCommentShape(s, i, lexeme.end);
        }
      }
      if lexeme.Rest? {
        StartsAtPair(s, i, "--");
        StartsAtPair(s[i..], 0, "--");
        StartsAtPair(s, i, "/*");
        StartsAtPair(s[i..], 0, "/*");
      } else {
        PiecesAreWellShaped(s, lexeme.end);
      }
    }
  }

  /** Semicolons split the tokens into statements. */
  function Split(ps: seq<Piece>, tokens: seq<string>, statements: seq<seq<string>>): (seq<string>, seq<seq<string>>) {
    if ps == [] then (tokens, statements)
    else if ps[0].kind == TOKEN then Split(ps[1..], tokens + [ps[0].text], statements)
    else if ps[0].kind == SEMICOLON then Split(ps[1..], [], statements + [tokens])
    else Split(ps[1..], tokens, statements)
  }

  /** The tokens are exactly the token pieces; reading fails only inside an open comment. */
  lemma {:induction false} LexIsSplit(s: string, i: nat, tokens: seq<string>, statements: seq<seq<string>>)
    requires i <= |s|
    ensures match Lex(s, i, tokens, statements)
            case Lexed(_, ts, ss) => Split(Pieces(s, i), tokens, statements) == (ts, ss)
            case InComment => Pieces(s, i) != [] && Pieces(s, i)[|Pieces(s, i)| - 1].kind == OPEN_COMMENT
    decreases |s| - i
  {
    if i < |s| {
      var lexeme := Scan(s, i);
      if !lexeme.Rest? {
        assert Pieces(s, i)[1..] == Pieces(s, lexeme.end);
        var tokens' := if lexeme.Separator? then [] else if lexeme.Word? then tokens + [s[i..lexeme.end]] else tokens;
        LexIsSplit(s, lexeme.end, tokens', if lexeme.Separator? then statements + [tokens] else statements);
      } else if lexeme.state == STRING_LITERAL && i + 1 < |s| {
        var word := s[i + 1..];
        assert Pieces(s, i)[1..] == [Piece(TOKEN, word)];
        assert [Piece(TOKEN, word)][1..] == [];
        assert Split([Piece(TOKEN, word)], tokens, statements) == (tokens + [word], statements);
      } else {
        assert Pieces(s, i)[1..] == [];
      }
    }
  }

  // ----- normal form -------------------------------------------------------------------------------------

  /** The tokens with single spaces between them. */
  function Join(ts: seq<string>): string {
    if ts == [] then "" else if |ts| == 1 then ts[0] else ts[0] + " " + Join(ts[1..])
  }

  predicate RunState(state: State) {
    state == NUMERIC || state == OPERATOR || state == KEYWORD
  }

  predicate InRun(state: State, c: char) {
    match state
    case NUMERIC => IsNumber(c)
    case OPERATOR => IsOperator(c)
    case KEYWORD => IsKeyword(c)
    case _ => false
  }

  /** A token in `u` that is followed by a blank or ends the input. */
  predicate Isolated(u: string, q: nat) {
    q == |u| || (q < |u| && u[q] == ' ')
  }

  /** `u` contains at `p` what `s` contains from `i` to `e`. */
  predicate Copied(s: string, i: nat, e: nat, u: string, p: nat) {
    i <= e <= |s| && p + (e - i) <= |u| && forall k :: i <= k < e ==> u[p + (k - i)] == s[k]
  }

  lemma {:induction false} MunchIsRun(s: string, state: State, start: nat, i: nat)
    requires RunState(state) && start < i && Numeric(s, state, start)
    ensures var r := Munch(s, state, start, i);
            var e := if r.Rest? then |s| else r.end;
            (r.Word? || r.Rest?) && (forall k :: i <= k < e && k < |s| ==> InRun(state, s[k])) &&
            (r.Word? && state == NUMERIC ==> IsInitialNumber(s[e - 1]))
    decreases |s| - i
  {
    if i < |s| && InRun(state, s[i]) {
      MunchIsRun(s, state, start, i + 1);
    }
  }

  lemma {:induction false} RunIsMunched(u: string, state: State, start: nat, i: nat, e: nat)
    requires RunState(state) && start < i <= e <= |u| && Numeric(u, state, start)
    requires forall k :: i <= k < e ==> InRun(state, u[k])
    requires Isolated(u, e)
    ensures Munch(u, state, start, i) ==
            if e == |u| then Rest(state) else if state == NUMERIC then Word(Backtrack(u, start, e)) else Word(e)
    decreases e - i
  {
    if i < e {
      RunIsMunched(u, state, start, i + 1, e);
    }
  }

  lemma {:induction false} QuotedRelexes(s: string, state: State, quote: char, start: nat, i: nat, e: nat, u: string, p: nat)
    requires (state == STRING_LITERAL && quote == '\'') || (state == QUOTED_IDENTIFIER && quote == '"')
    requires start < i && Munch(s, state, start, i) == Word(e)
    requires Copied(s, start, e, u, p) && Isolated(u, p + (e - start))
    ensures i < e && Munch(u, state, p, p + (i - start)) == Word(p + (e - start))
    decreases |s| - i
  {
    assert Munch(s, state, start, i) == MunchQuoted(s, state, quote, start, i);
    if s[i] != quote {
      QuotedRelexes(s, state, quote, start, i + 1, e, u, p);
    } else if i + 1 < |s| && s[i + 1] == quote {
      QuotedRelexes(s, state, quote, start, i + 2, e, u, p);
    }
    var j := p + (i - start);
    assert u[j] == s[i];
    assert i + 1 < e ==> u[j + 1] == s[i + 1];
    assert Munch(u, state, p, j) == MunchQuoted(u, state, quote, p, j);
  }

  lemma {:induction false} OpenIdentifierRelexes(s: string, start: nat, i: nat, u: string, p: nat)
    requires start < i <= |s| && Munch(s, QUOTED_IDENTIFIER, start, i) == Rest(QUOTED_IDENTIFIER)
    requires Copied(s, start, |s|, u, p) && p + (|s| - start) == |u|
    ensures Munch(u, QUOTED_IDENTIFIER, p, p + (i - start)) == Rest(QUOTED_IDENTIFIER)
    decreases |s| - i
  {
    if i < |s| {
      var j := p + (i - start);
      assert Munch(s, QUOTED_IDENTIFIER, start, i) == MunchQuoted(s, QUOTED_IDENTIFIER, '"', start, i);
      assert u[j] == s[i];
      assert i + 1 < |s| ==> u[j + 1] == s[i + 1];
      assert Munch(u, QUOTED_IDENTIFIER, p, j) == MunchQuoted(u, QUOTED_IDENTIFIER, '"', p, j);
      OpenIdentifierRelexes(s, start, if s[i] == '"' then i + 2 else i + 1, u, p);
    }
  }

  /** A two-character operator is found in the copy exactly if it was part of the token. */
  lemma PairRelexes(s: string, i: nat, e: nat, u: string, p: nat, op: string)
    requires i < e && Copied(s, i, e, u, p) && Isolated(u, p + (e - i)) && |op| == 2 && op[1] != ' '
    ensures StartsAt(u, p, op) <==> e >= i + 2 && StartsAt(s, i, op)
  {
    StartsAtPair(s, i, op);
    StartsAtPair(u, p, op);
    assert u[p] == s[i];
    assert e >= i + 2 ==> u[p + 1] == s[i + 1];
  }

  lemma TripleRelexes(s: string, i: nat, e: nat, u: string, p: nat)
    requires i < e && Copied(s, i, e, u, p) && Isolated(u, p + (e - i))
    ensures StartsAt(u, p, "->>") <==> e >= i + 3 && StartsAt(s, i, "->>")
  {
    assert p + 3 <= |u| ==> u[p..p + 3] == [u[p], u[p + 1], u[p + 2]];
    assert i + 3 <= |s| ==> s[i..i + 3] == [s[i], s[i + 1], s[i + 2]];
    assert u[p] == s[i];
    assert e >= i + 2 ==> u[p + 1] == s[i + 1];
    assert e >= i + 3 ==> u[p + 2] == s[i + 2];
  }

  /** No operator or comment starts in the copy that did not start in the original. */
  lemma OperatorsRelex(s: string, i: nat, e: nat, u: string, p: nat)
    requires i < e && Copied(s, i, e, u, p) && Isolated(u, p + (e - i))
    requires !StartsAt(s, i, "--") && !StartsAt(s, i, "/*")
    requires SpecialOperator(s, i) > 0 ==> e == i + SpecialOperator(s, i)
    ensures u[p] == s[i] && !StartsAt(u, p, "--") && !StartsAt(u, p, "/*")
    ensures SpecialOperator(u, p) == SpecialOperator(s, i)
  {
    PairRelexes(s, i, e, u, p, "--");
    PairRelexes(s, i, e, u, p, "/*");
    PairRelexes(s, i, e, u, p, "::");
    PairRelexes(s, i, e, u, p, ":=");
    PairRelexes(s, i, e, u, p, "->");
    PairRelexes(s, i, e, u, p, "**");
    PairRelexes(s, i, e, u, p, "//");
    TripleRelexes(s, i, e, u, p);
  }

  /** The state in which a run of characters is read. */
  predicate StartsRun(s: string, i: nat, state: State)
    requires i < |s|
  {
    RunState(state) && Numeric(s, state, i) && Scan(s, i) == Munch(s, state, i, i + 1) &&
    s[i] != '\'' && s[i] != '"' && !StartsAt(s, i, "--") && !StartsAt(s, i, "/*") && SpecialOperator(s, i) == 0
  }

  /** The first character decides the state. */
  lemma RunStartCopied(s: string, i: nat, state: State, e: nat, u: string, p: nat)
    requires i < |s| && StartsRun(s, i, state) && s[i] != ';' && !IsSpace(s[i]) && !IsSingleByteOperator(s[i])
    requires state == if IsInitialNumber(s[i]) then NUMERIC else if IsStringOperator(s[i]) then OPERATOR else KEYWORD
    requires i < e && Copied(s, i, e, u, p) && Isolated(u, p + (e - i))
    ensures Scan(u, p) == Munch(u, state, p, p + 1) && Numeric(u, state, p)
  {
    OperatorsRelex(s, i, e, u, p);
  }

  /** A token followed by a blank or by the end of the input is read as one token again. */
  lemma WordRelexes(s: string, i: nat, e: nat, u: string, p: nat)
    requires i < |s| && Scan(s, i) == Word(e) && Copied(s, i, e, u, p) && Isolated(u, p + (e - i))
    ensures var q := p + (e - i);
            p < |u| &&
            (Scan(u, p) == Word(q) || (q == |u| && Scan(u, p).Rest? && RunState(Scan(u, p).state)))
  {
    var c := s[i];
    assert u[p] == c;
    if c == '\'' {
      QuotedRelexes(s, STRING_LITERAL, '\'', i, i + 1, e, u, p);
    } else if c == '"' {
      QuotedRelexes(s, QUOTED_IDENTIFIER, '"', i, i + 1, e, u, p);
    } else if StartsAt(s, i, "--") {
      CommentsAreNotWords(s, SINGLE_LINE_COMMENT, i, i + 2);
    } else if StartsAt(s, i, "/*") {
      CommentsAreNotWords(s, MULTI_LINE_COMMENT, i, i + 2);
    } else if SpecialOperator(s, i) > 0 || IsSingleByteOperator(c) {
      OperatorsRelex(s, i, e, u, p);
    } else {
      RunRelexes(s, i, e, u, p);
    }
  }

  lemma {:induction false} CommentsAreNotWords(s: string, state: State, start: nat, i: nat)
    requires start < i && (state == SINGLE_LINE_COMMENT || state == MULTI_LINE_COMMENT)
    ensures !Munch(s, state, start, i).Word?
    decreases |s| - i
  {
    if i < |s| {
      CommentsAreNotWords(s, state, start, i + 1);
    }
  }

  lemma RunRelexes(s: string, i: nat, e: nat, u: string, p: nat)
    requires i < |s| && Scan(s, i) == Word(e) && Copied(s, i, e, u, p) && Isolated(u, p + (e - i))
    requires s[i] != '\'' && s[i] != '"' && !StartsAt(s, i, "--") && !StartsAt(s, i, "/*")
    requires SpecialOperator(s, i) == 0 && !IsSingleByteOperator(s[i])
    ensures var q := p + (e - i);
            p < |u| &&
            (Scan(u, p) == Word(q) || (q == |u| && Scan(u, p).Rest? && RunState(Scan(u, p).state)))
  {
    var state := if IsInitialNumber(s[i]) then NUMERIC else if IsStringOperator(s[i]) then OPERATOR else KEYWORD;
    var q := p + (e - i);
    RunStartCopied(s, i, state, e, u, p);
    MunchIsRun(s, state, i, i + 1);
    forall k | p + 1 <= k < q
      ensures InRun(state, u[k])
    {
      assert u[p + ((i + (k - p)) - i)] == s[i + (k - p)];
    }
    assert u[p + ((e - 1) - i)] == s[e - 1];
    RunIsMunched(u, state, p, p + 1, q);
  }

  /** A last token that runs to the end of the input does so again. */
  lemma RestRelexes(s: string, i: nat, u: string, p: nat)
    requires i < |s| && Scan(s, i).Rest? && (RunState(Scan(s, i).state) || Scan(s, i).state == QUOTED_IDENTIFIER)
    requires Copied(s, i, |s|, u, p) && p + (|s| - i) == |u|
    ensures p < |u| && Scan(u, p) == Scan(s, i)
  {
    var state := Scan(s, i).state;
    assert u[p] == s[i];
    if state == QUOTED_IDENTIFIER {
      OpenIdentifierRelexes(s, i, i + 1, u, p);
    } else {
      RunStartCopied(s, i, state, |s|, u, p);
      MunchIsRun(s, state, i, i + 1);
      forall k | p + 1 <= k < |u|
        ensures InRun(state, u[k])
      {
        assert u[p + ((i + (k - p)) - i)] == s[i + (k - p)];
      }
      RunIsMunched(u, state, p, p + 1, |u|);
    }
  }

  /** Tokens are only appended until a statement ends. */
  lemma {:induction false} LexAppends(s: string, i: nat, tokens: seq<string>, statements: seq<seq<string>>)
    requires i <= |s| && Lex(s, i, tokens, statements).Lexed?
    ensures var o := Lex(s, i, tokens, statements);
            |statements| <= |o.statements| && (|o.statements| == |statements| ==> tokens <= o.tokens)
    decreases |s| - i
  {
    if i < |s| {
      match Scan(s, i)
      case Blank(end) => LexAppends(s, end, tokens, statements);
      case Comment(end) => LexAppends(s, end, tokens, statements);
      case Separator(end) => LexAppends(s, end, [], statements + [tokens]);
      case Word(end) => LexAppends(s, end, tokens + [s[i..end]], statements);
      case Rest(_) =>
    }
  }

  /** Reading goes well and adds `ts`. */
  ghost predicate Yields(o: Outcome, before: seq<string>, ts: seq<string>) {
    o.Lexed? && o.state != STRING_LITERAL && o.tokens == before + ts && o.statements == []
  }

  /** Reading the rest of a statement. */
  ghost function LexRestOf(u: string, p: nat, before: seq<string>): Outcome
    requires p <= |u|
  {
    Lex(u, p, before, [])
  }

  /** Reading from `p` on yields `ts`. */
  ghost predicate ReadsAs(u: string, p: nat, before: seq<string>, ts: seq<string>)
    requires p <= |u|
  {
    Yields(LexRestOf(u, p, before), before, ts)
  }

  lemma YieldsOn(o: Outcome, p: Outcome, before: seq<string>, word: string, rest: seq<string>)
    requires o == p && Yields(p, before + [word], rest)
    ensures Yields(o, before, [word] + rest)
  {
    assert before + ([word] + rest) == (before + [word]) + rest;
  }

  lemma {:induction false} JoinRelexes(s: string, i: nat, acc: seq<string>, ts: seq<string>, u: string, p: nat,
                                       before: seq<string>)
    requires i <= |s| && p <= |u| && ReadsAs(s, i, acc, ts) && u[p..] == Join(ts)
    ensures ReadsAs(u, p, before, ts)
    decreases |s| - i
  {
    if i == |s| {
      assert ts == [] && p == |u|;
    } else {
      match Scan(s, i)
      case Blank(end) => JoinRelexes(s, end, acc, ts, u, p, before);
      case Comment(end) => JoinRelexes(s, end, acc, ts, u, p, before);
      case Separator(end) =>
        assert [] + [acc] == [acc];
        LexAppends(s, end, [], [acc]);
        assert false;
      case Word(end) => JoinRelexesWord(s, i, end, acc, ts, u, p, before);
      case Rest(state) =>
        assert s[i..] != "" && acc + ts == acc + [s[i..]];
        assert ts == (acc + ts)[|acc|..] == [s[i..]];
        CopiedText(s, i, |s|, u, p, "");
        RestRelexes(s, i, u, p);
        assert u[p..] == s[i..];
    }
  }

  lemma CopiedText(s: string, i: nat, e: nat, u: string, p: nat, rest: string)
    requires i <= e <= |s| && p <= |u| && u[p..] == s[i..e] + rest
    ensures Copied(s, i, e, u, p) && p + (e - i) + |rest| == |u| && u[p + (e - i)..] == rest && u[p..p + (e - i)] == s[i..e]
  {
    assert |u[p..]| == |u| - p;
    forall k | i <= k < e
      ensures u[p + (k - i)] == s[k]
    {
      assert u[p..][k - i] == s[i..e][k - i];
    }
    assert u[p + (e - i)..] == u[p..][e - i..];
  }

  lemma {:induction false} JoinRelexesWord(s: string, i: nat, e: nat, acc: seq<string>, ts: seq<string>, u: string, p: nat,
                                           before: seq<string>)
    requires i < |s| && p <= |u| && Scan(s, i) == Word(e) && ReadsAs(s, i, acc, ts) && u[p..] == Join(ts)
    ensures ReadsAs(u, p, before, ts)
    decreases |s| - i, 0
  {
    FirstToken(s, i, e, acc, ts);
    var rest := ts[1..];
    assert ts == [s[i..e]] + rest;
    if rest == [] {
      LastWord(s, i, e, u, p, before);
    } else {
      TextAfterWord(s, i, e, u, p, Join(rest));
      JoinRelexes(s, e, acc + [s[i..e]], rest, u, p + (e - i) + 1, before + [s[i..e]]);
      WordReadsOn(s, i, e, u, p, p + (e - i), before, rest);
    }
  }

  lemma WordReadsOn(s: string, i: nat, e: nat, u: string, p: nat, q: nat, before: seq<string>, rest: seq<string>)
    requires i < |s| && Scan(s, i) == Word(e) && p <= |u| && q == p + (e - i)
    requires q + 1 <= |u| && u[q] == ' ' && u[p..q] == s[i..e]
    requires ReadsAs(u, q + 1, before + [s[i..e]], rest)
    ensures ReadsAs(u, p, before, [s[i..e]] + rest)
  {
    WordAndSpace(s, i, e, u, p, q, before);
    YieldsOn(LexRestOf(u, p, before), LexRestOf(u, q + 1, before + [s[i..e]]), before, s[i..e], rest);
  }

  lemma TextAfterWord(s: string, i: nat, e: nat, u: string, p: nat, rest: string)
    requires i <= e <= |s| && p <= |u| && u[p..] == s[i..e] + (" " + rest)
    ensures p + (e - i) + 1 <= |u| && u[p..p + (e - i)] == s[i..e] && u[p + (e - i)] == ' ' && u[p + (e - i) + 1..] == rest
  {
    CopiedText(s, i, e, u, p, " " + rest);
    assert u[p + (e - i)..][0] == ' ' && u[p + (e - i) + 1..] == u[p + (e - i)..][1..];
  }

  lemma LastWord(s: string, i: nat, e: nat, u: string, p: nat, before: seq<string>)
    requires i < |s| && p <= |u| && Scan(s, i) == Word(e) && u[p..] == s[i..e]
    ensures ReadsAs(u, p, before, [s[i..e]])
  {
    CopiedText(s, i, e, u, p, "");
    WordRelexes(s, i, e, u, p);
    var word := s[i..e];
    assert |u| == p + (e - i) && u[p..|u|] == word && before + [word] == AddWord(before, word);
    if Scan(u, p).Rest? {
      LexRest(u, p, Scan(u, p).state, before, []);
    } else {
      LexStep(u, p, before, [], Progress(|u|, before + [word], []));
    }
  }

  /** The first token of what follows is the word at `i`. */
  lemma FirstToken(s: string, i: nat, e: nat, acc: seq<string>, ts: seq<string>)
    requires i < |s| && Scan(s, i) == Word(e) && ReadsAs(s, i, acc, ts)
    ensures ts != [] && ts[0] == s[i..e] && ReadsAs(s, e, acc + [s[i..e]], ts[1..])
  {
    var w := s[i..e];
    LexAppends(s, e, acc + [w], []);
    assert (acc + ts)[|acc|] == (acc + [w])[|acc|];
    assert acc + ts == (acc + [w]) + ts[1..];
  }

  /** A word followed by a space is read over. */
  lemma WordAndSpace(s: string, i: nat, e: nat, u: string, p: nat, q: nat, before: seq<string>)
    requires i < |s| && Scan(s, i) == Word(e) && p <= |u| && q == p + (e - i)
    requires q + 1 <= |u| && u[q] == ' ' && u[p..q] == s[i..e]
    ensures Lex(u, p, before, []) == Lex(u, q + 1, before + [s[i..e]], [])
  {
    assert u[p..] == s[i..e] + u[q..];
    CopiedText(s, i, e, u, p, u[q..]);
    WordRelexes(s, i, e, u, p);
    LexStep(u, p, before, [], Progress(q, before + [s[i..e]], []));
    LexStep(u, q, before + [s[i..e]], [], Progress(q + 1, before + [s[i..e]], []));
  }

  /** The normal form of a statement: its tokens, joined by single spaces, are read back. */
  lemma NormalForm(sql: string)
    requires var o := Lex(sql, 0, [], []);
             o.Lexed? && o.statements == [] && o.state != STRING_LITERAL
    ensures var o := Lex(sql, 0, [], []);
            ReadsAs(Join(o.tokens), 0, [], o.tokens)
  {
    var ts := Lex(sql, 0, [], []).tokens;
    assert [] + ts == ts;
    JoinRelexes(sql, 0, [], ts, Join(ts), 0, []);
  }
}
