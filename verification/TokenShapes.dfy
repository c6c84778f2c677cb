/** What the tokenizer cuts a script into, said of the characters alone: the shape of every piece decides
    where it ends, so that there is only one way to cut a script. */
module TokenShapes {
  import opened Common
  import opened Tokenizer
  import opened TokenizerProperties

  // ----- shapes -------------------------------------------------------------------------------------------

  /** The characters of each class. */
  lemma CharacterClasses(c: char)
    ensures IsSingleByteOperator(c) <==> c in "(){}[],?$+-#"
    ensures IsOperator(c) <==> c in "!%&*/:<=>@\\^`|~"
    ensures IsNumber(c) <==> c in "0123456789.eE+-_"
    ensures IsKeyword(c) <==> c == '_' || '0' <= c <= '9' || 'A' <= c <= 'Z' || 'a' <= c <= 'z' || c > '~' || (c < ' ' && !IsSpace(c))
  {
  }

  /** The quotes from `i` to `e` come in pairs. */
  predicate Paired(s: string, i: nat, e: nat, quote: char)
    requires e <= |s|
    decreases e - i
  {
    i >= e ||
    if s[i] != quote then Paired(s, i + 1, e, quote)
    else i + 1 < e && s[i + 1] == quote && Paired(s, i + 2, e, quote)
  }

  /** From quote to quote, the quotes inside in pairs, and no quote behind it. */
  predicate IsQuoted(s: string, i: nat, e: nat, quote: char) {
    i + 2 <= e <= |s| && s[i] == quote && s[e - 1] == quote && Paired(s, i + 1, e - 1, quote) && (e < |s| ==> s[e] != quote)
  }

  /** A quote that is never closed. */
  predicate IsOpenQuoted(s: string, i: nat, quote: char) {
    i < |s| && s[i] == quote && Paired(s, i + 1, |s|, quote)
  }

  /** All characters of a class from `i` up to `e`. */
  predicate IsRun(s: string, i: nat, e: nat, state: State) {
    i < e <= |s| && (forall k :: i <= k < e ==> InRun(state, s[k])) && (e < |s| ==> !InRun(state, s[e]))
  }

  /** Of the run of number characters as much as ends in a digit or a point, or all of it at the end of the input. */
  ghost predicate IsNumberAt(s: string, i: nat, e: nat) {
    i < e <= |s| && IsInitialNumber(s[i]) &&
    if forall k :: i <= k < |s| ==> IsNumber(s[k]) then e == |s|
    else
      IsInitialNumber(s[e - 1]) && (forall k :: i <= k < e ==> IsNumber(s[k])) &&
      exists r :: EndsNumber(s, e, r)
  }

  /** The run of number characters goes on to `r`, without a digit or point. */
  predicate EndsNumber(s: string, e: nat, r: nat) {
    e <= r < |s| && !IsNumber(s[r]) && forall k :: e <= k < r ==> IsNumber(s[k]) && !IsInitialNumber(s[k])
  }

  predicate IsSpecialOperator(s: string, i: nat, e: nat) {
    if StartsAt(s, i, "->>") then e == i + 3
    else
      e == i + 2 &&
      (StartsAt(s, i, "::") || StartsAt(s, i, ":=") || StartsAt(s, i, "->") || StartsAt(s, i, "**") || StartsAt(s, i, "//"))
  }

  /** A token from `i` to `e`. */
  ghost predicate IsToken(s: string, i: nat, e: nat) {
    i < e <= |s| &&
    if s[i] == '\'' then IsQuoted(s, i, e, '\'')
    else if s[i] == '"' then IsQuoted(s, i, e, '"') || (IsOpenQuoted(s, i, '"') && e == |s|)
    else if IsSpace(s[i]) || s[i] == ';' || StartsAt(s, i, "--") || StartsAt(s, i, "/*") then false
    else if IsSpecialOperator(s, i, i + 3) || IsSpecialOperator(s, i, i + 2) then IsSpecialOperator(s, i, e)
    else if s[i] in "(){}[],?$+-#" then e == i + 1
    else if '0' <= s[i] <= '9' || s[i] == '.' then IsNumberAt(s, i, e)
    else if IsOperator(s[i]) then IsRun(s, i, e, OPERATOR)
    else IsRun(s, i, e, KEYWORD)
  }

  predicate IsLineComment(s: string, i: nat, e: nat) {
    StartsAt(s, i, "--") && i + 3 <= e <= |s| && IsNewline(s[e - 1]) && forall k :: i + 2 <= k < e - 1 ==> !IsNewline(s[k])
  }

  predicate IsBlockComment(s: string, i: nat, e: nat) {
    StartsAt(s, i, "/*") && i + 4 <= e <= |s| && StartsAt(s, e - 2, "*/") &&
    forall k :: i + 2 <= k < e - 2 ==> !StartsAt(s, k, "*/")
  }

  predicate IsOpenComment(s: string, i: nat) {
    (StartsAt(s, i, "--") && forall k :: i + 2 <= k < |s| ==> !IsNewline(s[k])) ||
    (StartsAt(s, i, "/*") && forall k :: i + 2 <= k < |s| ==> !StartsAt(s, k, "*/"))
  }

  ghost predicate IsPiece(s: string, i: nat, e: nat, kind: Kind) {
    i < e <= |s| &&
    match kind
    case WHITESPACE => e == i + 1 && IsSpace(s[i])
    case SEMICOLON => e == i + 1 && s[i] == ';'
    case COMMENT => IsLineComment(s, i, e) || IsBlockComment(s, i, e)
    case OPEN_COMMENT => e == |s| && IsOpenComment(s, i)
    case OPEN_QUOTE => e == i + 1 && IsOpenQuoted(s, i, '\'')
    case TOKEN => IsToken(s, i, e)
  }

  /** The pieces lie one behind the other from `i` to the end, each of its shape. Behind the quote of a string
      that is never closed the rest of the input is one token. */
  ghost predicate CutsInto(shape: (nat, nat, Kind) -> bool, s: string, i: nat, ps: seq<Piece>)
    decreases |ps|
  {
    i <= |s| &&
    if ps == [] then i == |s|
    else
      var e := i + |ps[0].text|;
      e <= |s| && s[i..e] == ps[0].text && shape(i, e, ps[0].kind) &&
      if ps[0].kind == OPEN_QUOTE then ps[1..] == if e == |s| then [] else [Piece(TOKEN, s[e..])]
      else CutsInto(shape, s, e, ps[1..])
  }

  ghost function ShapesIn(s: string): (nat, nat, Kind) -> bool {
    (i: nat, e: nat, kind: Kind) => IsPiece(s, i, e, kind)
  }

  ghost predicate IsCut(s: string, i: nat, ps: seq<Piece>) {
    CutsInto(ShapesIn(s), s, i, ps)
  }

  // ----- there is one cut -----------------------------------------------------------------------------------

  /** A single quote is never one of a pair, wherever the end is. */
  lemma {:induction false} LoneQuote(s: string, i: nat, q: nat, e: nat, quote: char)
    requires i <= q < e <= |s| && Paired(s, i, q, quote) && s[q] == quote && (q + 1 < |s| ==> s[q + 1] != quote)
    ensures !Paired(s, i, e, quote)
    decreases q - i
  {
    if i < q {
      LoneQuote(s, if s[i] == quote then i + 2 else i + 1, q, e, quote);
    }
  }

  lemma QuotedIsClosed(s: string, i: nat, e: nat, quote: char)
    requires IsQuoted(s, i, e, quote)
    ensures !IsOpenQuoted(s, i, quote)
  {
    LoneQuote(s, i + 1, e - 1, |s|, quote);
  }

  lemma QuotedIsUnique(s: string, i: nat, e: nat, f: nat, quote: char)
    requires IsQuoted(s, i, e, quote) && IsQuoted(s, i, f, quote)
    ensures e == f
  {
    if e < f {
      LoneQuote(s, i + 1, e - 1, f - 1, quote);
    } else if f < e {
      LoneQuote(s, i + 1, f - 1, e - 1, quote);
    }
  }

  lemma NumberIsUnique(s: string, i: nat, e: nat, f: nat)
    requires IsNumberAt(s, i, e) && IsNumberAt(s, i, f)
    ensures e == f
  {
  }

  lemma TokenIsUnique(s: string, i: nat, e: nat, f: nat)
    requires IsToken(s, i, e) && IsToken(s, i, f)
    ensures e == f
  {
    if IsNumberAt(s, i, e) && IsNumberAt(s, i, f) {
      NumberIsUnique(s, i, e, f);
    } else if IsQuoted(s, i, e, s[i]) {
      QuotedIsClosed(s, i, e, s[i]);
      QuotedIsUnique(s, i, e, f, s[i]);
    } else if IsQuoted(s, i, f, s[i]) {
      QuotedIsClosed(s, i, f, s[i]);
    }
  }

  lemma CommentIsClosed(s: string, i: nat, e: nat)
    requires IsLineComment(s, i, e) || IsBlockComment(s, i, e)
    ensures !IsOpenComment(s, i)
  {
    StartsAtPair(s, i, "--");
    StartsAtPair(s, i, "/*");
    if IsLineComment(s, i, e) {
      var k := e - 1;
      assert i + 2 <= k < |s| && IsNewline(s[k]);
    } else {
      var k := e - 2;
      assert i + 2 <= k < |s| && StartsAt(s, k, "*/");
    }
  }

  lemma CommentIsUnique(s: string, i: nat, e: nat, f: nat)
    requires IsLineComment(s, i, e) || IsBlockComment(s, i, e)
    requires IsLineComment(s, i, f) || IsBlockComment(s, i, f)
    ensures e == f
  {
    StartsAtPair(s, i, "--");
    StartsAtPair(s, i, "/*");
  }

  lemma PieceIsUnique(s: string, i: nat, e: nat, f: nat, kind: Kind, other: Kind)
    requires IsPiece(s, i, e, kind) && IsPiece(s, i, f, other)
    ensures kind == other && e == f
  {
    StartsAtPair(s, i, "--");
    StartsAtPair(s, i, "/*");
    if kind == TOKEN && other == TOKEN {
      TokenIsUnique(s, i, e, f);
    } else if kind == COMMENT && other == COMMENT {
      CommentIsUnique(s, i, e, f);
    } else {
      ClosedPiece(s, i, e, kind);
      ClosedPiece(s, i, f, other);
    }
  }

  /** What is closed is not open. */
  lemma ClosedPiece(s: string, i: nat, e: nat, kind: Kind)
    requires IsPiece(s, i, e, kind)
    ensures kind == COMMENT ==> !IsOpenComment(s, i)
    ensures kind == TOKEN && s[i] == '\'' ==> !IsOpenQuoted(s, i, '\'')
  {
    if kind == COMMENT {
      CommentIsClosed(s, i, e);
    } else if kind == TOKEN && s[i] == '\'' {
      QuotedIsClosed(s, i, e, '\'');
    }
  }

  lemma {:induction false} OneCut(shape: (nat, nat, Kind) -> bool, s: string, i: nat, ps: seq<Piece>, qs: seq<Piece>)
    requires forall i, e, f, kind, other :: shape(i, e, kind) && shape(i, f, other) ==> kind == other && e == f
    requires forall i, e, kind :: shape(i, e, kind) ==> i < e
    requires CutsInto(shape, s, i, ps) && CutsInto(shape, s, i, qs)
    ensures ps == qs
    decreases |ps|
  {
    if ps != [] && qs != [] {
      if ps[0].kind != OPEN_QUOTE {
        OneCut(shape, s, i + |ps[0].text|, ps[1..], qs[1..]);
      }
      assert ps == [ps[0]] + ps[1..] && qs == [qs[0]] + qs[1..];
    }
  }

  lemma CutIsUnique(s: string, i: nat, ps: seq<Piece>, qs: seq<Piece>)
    requires IsCut(s, i, ps) && IsCut(s, i, qs)
    ensures ps == qs
  {
    forall i, e, f, kind, other | ShapesIn(s)(i, e, kind) && ShapesIn(s)(i, f, other)
      ensures kind == other && e == f
    {
      PieceIsUnique(s, i, e, f, kind, other);
    }
    OneCut(ShapesIn(s), s, i, ps, qs);
  }

  // ----- the tokenizer finds it -----------------------------------------------------------------------------

  lemma {:induction false} QuotedEnds(s: string, state: State, quote: char, start: nat, i: nat)
    requires (state == STRING_LITERAL && quote == '\'') || (state == QUOTED_IDENTIFIER && quote == '"')
    requires start < i <= |s|
    ensures var r := Munch(s, state, start, i);
            && (r.Word? || r.Rest?)
            && (r.Word? ==> i < r.end && Paired(s, i, r.end - 1, quote) && s[r.end - 1] == quote && (r.end < |s| ==> s[r.end] != quote))
            && (r.Rest? ==> Paired(s, i, |s|, quote))
    decreases |s| - i
  {
    if i < |s| {
      assert Munch(s, state, start, i) == MunchQuoted(s, state, quote, start, i);
      if s[i] != quote {
        QuotedEnds(s, state, quote, start, i + 1);
      } else if i + 1 < |s| && s[i + 1] == quote {
        QuotedEnds(s, state, quote, start, i + 2);
      }
    }
  }

  lemma {:induction false} OpenCommentEnds(s: string, state: State, start: nat, i: nat)
    requires start < i && (state == SINGLE_LINE_COMMENT || state == MULTI_LINE_COMMENT)
    requires Munch(s, state, start, i).Rest?
    ensures state == SINGLE_LINE_COMMENT ==> forall k :: i <= k < |s| ==> !IsNewline(s[k])
    ensures state == MULTI_LINE_COMMENT ==> forall k :: i <= k < |s| ==> !StartsAt(s, k, "*/")
    decreases |s| - i
  {
    if i < |s| {
      OpenCommentEnds(s, state, start, i + 1);
    }
  }

  lemma {:induction false} RunEnds(s: string, state: State, start: nat, i: nat) returns (r: nat)
    requires RunState(state) && start < i <= |s| && Numeric(s, state, start)
    ensures i <= r <= |s| && (forall k :: i <= k < r ==> InRun(state, s[k])) && (r < |s| ==> !InRun(state, s[r]))
    ensures Munch(s, state, start, i)
            == if r == |s| then Rest(state) else if state == NUMERIC then Word(Backtrack(s, start, r)) else Word(r)
    decreases |s| - i
  {
    r := i;
    if i < |s| && InRun(state, s[i]) {
      r := RunEnds(s, state, start, i + 1);
    }
  }

  /** The shape of what starts at `i`. */
  ghost predicate HasShape(s: string, i: nat, lexeme: Lexeme) {
    match lexeme
    case Blank(e) => IsPiece(s, i, e, WHITESPACE)
    case Separator(e) => IsPiece(s, i, e, SEMICOLON)
    case Comment(e) => IsPiece(s, i, e, COMMENT)
    case Word(e) => IsPiece(s, i, e, TOKEN)
    case Rest(state) =>
      if state == SINGLE_LINE_COMMENT || state == MULTI_LINE_COMMENT then IsPiece(s, i, |s|, OPEN_COMMENT)
      else if state == STRING_LITERAL then IsPiece(s, i, i + 1, OPEN_QUOTE)
      else IsPiece(s, i, |s|, TOKEN)
  }

  lemma CommentHasShape(s: string, i: nat)
    requires i < |s| && (StartsAt(s, i, "--") || StartsAt(s, i, "/*"))
    ensures HasShape(s, i, Scan(s, i))
  {
    StartsAtPair(s, i, "--");
    StartsAtPair(s, i, "/*");
    var state := if s[i] == '-' then SINGLE_LINE_COMMENT else MULTI_LINE_COMMENT;
    var lexeme := Munch(s, state, i, i + 2);
    CommentsAreNotWords(s, state, i, i + 2);
    if lexeme.Rest? {
      OpenCommentEnds(s, state, i, i + 2);
    } else if state == SINGLE_LINE_COMMENT {
      LineCommentEnds(s, i, i + 2, lexeme.end);
    } else {
      BlockCommentEnds(s, i, i + 2, lexeme.end);
    }
  }

  lemma RunHasShape(s: string, i: nat, state: State)
    requires i < |s| && (state == OPERATOR || state == KEYWORD) && InRun(state, s[i])
    ensures var r := Munch(s, state, i, i + 1);
            (r.Word? || r == Rest(state)) && IsRun(s, i, if r.Word? then r.end else |s|, state)
  {
    var r := RunEnds(s, state, i, i + 1);
  }

  lemma NumberHasShape(s: string, i: nat)
    requires i < |s| && IsInitialNumber(s[i])
    ensures var r := Munch(s, NUMERIC, i, i + 1);
            (r.Word? || r.Rest?) && IsNumberAt(s, i, if r.Word? then r.end else |s|)
  {
    var r := RunEnds(s, NUMERIC, i, i + 1);
    if r < |s| {
      assert EndsNumber(s, Backtrack(s, i, r), r);
    }
  }

  /** Neither quoted nor a comment: an operator of one, two or three characters, or a run. */
  lemma PlainHasShape(s: string, i: nat)
    requires i < |s| && s[i] != '\'' && s[i] != '"' && !StartsAt(s, i, "--") && !StartsAt(s, i, "/*")
    ensures HasShape(s, i, Scan(s, i))
  {
    var c := s[i];
    CharacterClasses(c);
    if c == ';' || IsSpace(c) || SpecialOperator(s, i) > 0 || IsSingleByteOperator(c) {
    } else if IsInitialNumber(c) {
      NumberHasShape(s, i);
    } else if IsStringOperator(c) {
      RunHasShape(s, i, OPERATOR);
    } else {
      RunHasShape(s, i, KEYWORD);
    }
  }

  lemma ScanHasShape(s: string, i: nat)
    requires i < |s|
    ensures HasShape(s, i, Scan(s, i))
  {
    if s[i] == '\'' {
      QuotedEnds(s, STRING_LITERAL, '\'', i, i + 1);
    } else if s[i] == '"' {
      QuotedEnds(s, QUOTED_IDENTIFIER, '"', i, i + 1);
    } else if StartsAt(s, i, "--") || StartsAt(s, i, "/*") {
      CommentHasShape(s, i);
    } else {
      PlainHasShape(s, i);
    }
  }

  lemma CutStep(s: string, i: nat, e: nat, kind: Kind, rest: seq<Piece>)
    requires IsPiece(s, i, e, kind) && kind != OPEN_QUOTE && IsCut(s, e, rest)
    ensures IsCut(s, i, [Piece(kind, s[i..e])] + rest)
  {
  }

  lemma OpenQuoteIsACut(s: string, i: nat)
    requires i < |s| && Scan(s, i) == Rest(STRING_LITERAL) && IsPiece(s, i, i + 1, OPEN_QUOTE)
    ensures IsCut(s, i, Pieces(s, i))
  {
    var rest := if i + 1 == |s| then [] else [Piece(TOKEN, s[i + 1..])];
    assert Pieces(s, i) == [Piece(OPEN_QUOTE, s[i..i + 1])] + rest;
    assert Pieces(s, i)[1..] == rest;
  }

  lemma RestIsACut(s: string, i: nat)
    requires i < |s| && Scan(s, i).Rest? && Scan(s, i).state != STRING_LITERAL && HasShape(s, i, Scan(s, i))
    ensures IsCut(s, i, Pieces(s, i))
  {
    var state := Scan(s, i).state;
    var kind := if state == SINGLE_LINE_COMMENT || state == MULTI_LINE_COMMENT then OPEN_COMMENT else TOKEN;
    CutStep(s, i, |s|, kind, []);
    assert s[i..] == s[i..|s|];
    assert Pieces(s, i) == [Piece(kind, s[i..])] == [Piece(kind, s[i..|s|])] + [];
  }

  function KindOf(lexeme: Lexeme): Kind
    requires !lexeme.Rest?
  {
    match lexeme
    case Blank(_) => WHITESPACE
    case Separator(_) => SEMICOLON
    case Comment(_) => COMMENT
    case Word(_) => TOKEN
  }

  /** The pieces that the tokenizer passes over are a cut, hence the only one. */
  lemma {:induction false} PiecesAreACut(s: string, i: nat)
    requires i <= |s|
    ensures IsCut(s, i, Pieces(s, i))
    decreases |s| - i
  {
    if i < |s| {
      var lexeme := Scan(s, i);
      ScanHasShape(s, i);
      if lexeme == Rest(STRING_LITERAL) {
        OpenQuoteIsACut(s, i);
      } else if lexeme.Rest? {
        RestIsACut(s, i);
      } else {
        PiecesAreACut(s, lexeme.end);
        CutStep(s, i, lexeme.end, KindOf(lexeme), Pieces(s, lexeme.end));
      }
    }
  }

  lemma {:induction false} OpenCommentIffFailed(s: string, i: nat, tokens: seq<string>, statements: seq<seq<string>>)
    requires i <= |s|
    ensures Lex(s, i, tokens, statements).InComment? <==>
            Pieces(s, i) != [] && Pieces(s, i)[|Pieces(s, i)| - 1].kind == OPEN_COMMENT
    decreases |s| - i
  {
    if i < |s| && !Scan(s, i).Rest? {
      var p := After(s, i, Scan(s, i), tokens, statements);
      LexStep(s, i, tokens, statements, p);
      FirstPiece(s, i, p.next);
      OpenCommentIffFailed(s, p.next, p.tokens, p.statements);
    }
  }

  /** Reading a script, however it is cut: it fails iff it ends in an open comment, and otherwise the tokens
      and statements are those of the cut. */
  lemma LexOfCut(s: string, ps: seq<Piece>)
    requires IsCut(s, 0, ps)
    ensures Lex(s, 0, [], []).InComment? <==> ps != [] && ps[|ps| - 1].kind == OPEN_COMMENT
    ensures Lex(s, 0, [], []).Lexed? ==> Split(ps, [], []) == (Lex(s, 0, [], []).tokens, Lex(s, 0, [], []).statements)
  {
    PiecesAreACut(s, 0);
    CutIsUnique(s, 0, ps, Pieces(s, 0));
    LexIsSplit(s, 0, [], []);
    OpenCommentIffFailed(s, 0, [], []);
  }
}
