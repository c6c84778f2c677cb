/** The tokenizer of the autocomplete extension, as used to check a script (`ParserTokenizer`):
    an eight-state loop over the characters, and the maximal-munch function it computes. */
module Tokenizer {
  import opened Common

  // ----- character classes ----------------------------------------------------------------------------

  predicate IsStringOperator(c: char) {
    c != '_' && ('!' <= c <= '/' || ':' <= c <= '@' || '[' <= c <= '`' || '{' <= c <= '~')
  }

  predicate IsSingleByteOperator(c: char) {
    c == '(' || c == ')' || c == '{' || c == '}' || c == '[' || c == ']' || c == ',' || c == '?' || c == '$' ||
    c == '+' || c == '-' || c == '#'
  }

  predicate IsInitialNumber(c: char) {
    '0' <= c <= '9' || c == '.'
  }

  predicate IsNumber(c: char) {
    IsInitialNumber(c) || c == 'e' || c == 'E' || c == '-' || c == '+' || c == '_'
  }

  predicate IsControlFlow(c: char) {
    c == '\'' || c == '-' || c == ';' || c == '"' || c == '.'
  }

  predicate IsKeyword(c: char) {
    !IsSingleByteOperator(c) && !IsStringOperator(c) && !IsSpace(c) && !IsControlFlow(c)
  }

  predicate IsOperator(c: char) {
    !IsSingleByteOperator(c) && !IsControlFlow(c) && IsStringOperator(c)
  }

  predicate StartsAt(s: string, i: nat, op: string) {
    i + |op| <= |s| && s[i..i + |op|] == op
  }

  lemma StartsAtPair(s: string, i: nat, op: string)
    requires |op| == 2
    ensures StartsAt(s, i, op) <==> i + 2 <= |s| && s[i] == op[0] && s[i + 1] == op[1]
  {
    if i + 2 <= |s| {
      assert s[i..i + 2] == [s[i], s[i + 1]] && op == [op[0], op[1]];
    }
  }

  /** Length of the multi-character operator at `i`, or 0. */
  function SpecialOperator(s: string, i: nat): nat {
    if StartsAt(s, i, "->>") then 3
    else if StartsAt(s, i, "::") || StartsAt(s, i, ":=") || StartsAt(s, i, "->") || StartsAt(s, i, "**") ||
            StartsAt(s, i, "//") then 2
    else 0
  }

  // ----- maximal munch -----------------------------------------------------------------------------------

  datatype State =
    | STANDARD | SINGLE_LINE_COMMENT | MULTI_LINE_COMMENT | QUOTED_IDENTIFIER | STRING_LITERAL
    | KEYWORD | NUMERIC | OPERATOR

  /** What starts at a position in the standard state: it ends before `end`, or runs to the end of
      the input in `state`. */
  datatype Lexeme =
    | Blank(end: nat)
    | Separator(end: nat)
    | Comment(end: nat)
    | Word(end: nat)
    | Rest(state: State)

  function Backtrack(s: string, start: nat, i: nat): (r: nat)
    requires start < i <= |s| && IsInitialNumber(s[start])
    ensures start < r <= i && IsInitialNumber(s[r - 1])
    ensures forall k :: r <= k < i ==> !IsInitialNumber(s[k])
  {
    if IsInitialNumber(s[i - 1]) then i else Backtrack(s, start, i - 1)
  }

  predicate Numeric(s: string, state: State, start: nat) {
    state == NUMERIC ==> start < |s| && IsInitialNumber(s[start])
  }

  /** Continues a lexeme that started at `start` and has been read up to `i`. */
  function Munch(s: string, state: State, start: nat, i: nat): (r: Lexeme)
    requires start < i && state != STANDARD && Numeric(s, state, start)
    ensures !r.Separator? && !r.Blank? && (r.Rest? ==> r.state == state)
    ensures !r.Rest? ==> start < r.end <= |s|
    decreases |s| - i
  {
    if i >= |s| then Rest(state)
    else
      match state
      case NUMERIC => if IsNumber(s[i]) then Munch(s, state, start, i + 1) else Word(Backtrack(s, start, i))
      case OPERATOR => if IsOperator(s[i]) then Munch(s, state, start, i + 1) else Word(i)
      case KEYWORD => if IsKeyword(s[i]) then Munch(s, state, start, i + 1) else Word(i)
      case STRING_LITERAL => MunchQuoted(s, state, '\'', start, i)
      case QUOTED_IDENTIFIER => MunchQuoted(s, state, '"', start, i)
      case SINGLE_LINE_COMMENT => if IsNewline(s[i]) then Comment(i + 1) else Munch(s, state, start, i + 1)
      case MULTI_LINE_COMMENT => if StartsAt(s, i, "*/") then Comment(i + 2) else Munch(s, state, start, i + 1)
  }

  function MunchQuoted(s: string, state: State, quote: char, start: nat, i: nat): (r: Lexeme)
    requires start < i < |s| && (state == STRING_LITERAL || state == QUOTED_IDENTIFIER)
    ensures !r.Separator? && !r.Blank? && (r.Rest? ==> r.state == state)
    ensures !r.Rest? ==> start < r.end <= |s|
    decreases |s| - i, 0
  {
    if s[i] != quote then Munch(s, state, start, i + 1)
    else if i + 1 < |s| && s[i + 1] == quote then Munch(s, state, start, i + 2)  // escaped
    else Word(i + 1)
  }

  function Scan(s: string, i: nat): (r: Lexeme)
    requires i < |s|
    ensures !r.Rest? ==> i < r.end <= |s|
  {
    var c := s[i];
    if c == '\'' then Munch(s, STRING_LITERAL, i, i + 1)
    else if c == '"' then Munch(s, QUOTED_IDENTIFIER, i, i + 1)
    else if c == ';' then Separator(i + 1)
    else if StartsAt(s, i, "--") then Munch(s, SINGLE_LINE_COMMENT, i, i + 2)
    else if StartsAt(s, i, "/*") then Munch(s, MULTI_LINE_COMMENT, i, i + 2)
    else if IsSpace(c) then Blank(i + 1)
    else if SpecialOperator(s, i) > 0 then Word(i + SpecialOperator(s, i))
    else if IsSingleByteOperator(c) then Word(i + 1)
    else if IsInitialNumber(c) then Munch(s, NUMERIC, i, i + 1)
    else if IsStringOperator(c) then Munch(s, OPERATOR, i, i + 1)
    else Munch(s, KEYWORD, i, i + 1)
  }

  /** The outcome of reading a script. A script that ends in a comment is not completed. */
  datatype Outcome = Lexed(state: State, tokens: seq<string>, statements: seq<seq<string>>) | InComment

  function AddWord(tokens: seq<string>, word: string): seq<string> {
    if word == "" then tokens else tokens + [word]
  }

  function Lex(s: string, i: nat, tokens: seq<string>, statements: seq<seq<string>>): Outcome
    requires i <= |s|
    decreases |s| - i
  {
    if i == |s| then Lexed(STANDARD, tokens, statements)
    else
      match Scan(s, i)
      case Blank(end) => Lex(s, end, tokens, statements)
      case Comment(end) => Lex(s, end, tokens, statements)
      case Separator(end) => Lex(s, end, [], statements + [tokens])
      case Word(end) => Lex(s, end, tokens + [s[i..end]], statements)
      case Rest(state) =>
        if state == SINGLE_LINE_COMMENT || state == MULTI_LINE_COMMENT then InComment
        else Lexed(state, AddWord(tokens, s[(if state == STRING_LITERAL then i + 1 else i)..]), statements)
  }

  /** Where reading goes on after a lexeme, with the tokens of the statement so far and the statements. */
  datatype Progress = Progress(next: nat, tokens: seq<string>, statements: seq<seq<string>>)

  function After(s: string, i: nat, lexeme: Lexeme, tokens: seq<string>, statements: seq<seq<string>>): Progress
    requires !lexeme.Rest? && i < lexeme.end <= |s|
  {
    match lexeme
    case Blank(end) => Progress(end, tokens, statements)
    case Comment(end) => Progress(end, tokens, statements)
    case Separator(end) => Progress(end, [], statements + [tokens])
    case Word(end) => Progress(end, tokens + [s[i..end]], statements)
  }

  lemma LexStep(s: string, i: nat, tokens: seq<string>, statements: seq<seq<string>>, p: Progress)
    requires i < |s| && !Scan(s, i).Rest? && p == After(s, i, Scan(s, i), tokens, statements)
    ensures p.next <= |s| && Lex(s, i, tokens, statements) == Lex(s, p.next, p.tokens, p.statements)
  {
  }

  /** A lexeme that runs to the end of the input. */
  lemma LexRest(s: string, i: nat, state: State, tokens: seq<string>, statements: seq<seq<string>>)
    requires i < |s| && Scan(s, i) == Rest(state)
    ensures Lex(s, i, tokens, statements)
            == if state == SINGLE_LINE_COMMENT || state == MULTI_LINE_COMMENT then InComment
               else Lexed(state, AddWord(tokens, s[(if state == STRING_LITERAL then i + 1 else i)..]), statements)
  {
  }

  // ----- the state machine -------------------------------------------------------------------------------

  class ParserTokenizer {
    const sql: string
    var tokens: seq<string>
    var statements: seq<seq<string>>

    constructor (sql: string)
      ensures this.sql == sql && tokens == [] && statements == []
    {
      this.sql := sql;
      tokens, statements := [], [];
    }

    method PushToken(start: nat, end: nat)
      requires end <= |sql|
      modifies this`tokens
      ensures tokens == if start >= end then old(tokens) else old(tokens) + [sql[start..end]]
    {
      if start >= end {
        return;
      }
      tokens := tokens + [sql[start..end]];
    }

    method OnStatementEnd()
      modifies this
      ensures tokens == [] && statements == old(statements) + [old(tokens)]
    {
      statements := statements + [tokens];
      tokens := [];
    }

    method OnLastToken(lastWord: string)
      modifies this`tokens
      ensures tokens == AddWord(old(tokens), lastWord)
    {
      if lastWord == "" {
        return;
      }
      tokens := tokens + [lastWord];
    }

    /** Where the lexeme that has been read from `lastPos` up to `i` is going to end. */
    ghost predicate Reading(state: State, lastPos: nat, i: nat)
      reads this
    {
      lastPos <= i && lastPos <= |sql| &&
      if state == STANDARD then i == lastPos
      else
        lastPos < i && lastPos < |sql| && Numeric(sql, state, lastPos) &&
        Scan(sql, lastPos) == Munch(sql, state, lastPos, i)
    }

    /** The lexeme at `start` has been read as a whole up to `lastPos`, or up to `last` in another state. */
    twostate predicate Continues(start: nat, state: State, lastPos: nat, last: nat)
      reads this
    {
      start < |sql| &&
      if state == STANDARD then
        lastPos == last + 1 && !Scan(sql, start).Rest? &&
        Progress(lastPos, tokens, statements) == After(sql, start, Scan(sql, start), old(tokens), old(statements))
      else
        lastPos == start && tokens == old(tokens) && statements == old(statements) && Reading(state, start, last + 1)
    }

    /** The standard state: reads a blank, a separator or an operator, or starts a lexeme.
        `last` is the last character that has been read. */
    method BeginLexeme(start: nat) returns (state: State, lastPos: nat, last: nat)
      requires start < |sql|
      modifies this
      ensures start <= last && Continues(start, state, lastPos, last)
    {
      var c := sql[start];
      state, lastPos, last := STANDARD, start, start;
      StartsAtPair(sql, start, "--");
      StartsAtPair(sql, start, "/*");
      if c == '\'' {
        state := STRING_LITERAL;
        return;
      }
      if c == '"' {
        state := QUOTED_IDENTIFIER;
        return;
      }
      if c == ';' {
        OnStatementEnd();
        lastPos := start + 1;
        return;
      }
      if c == '-' && start + 1 < |sql| && sql[start + 1] == '-' {
        last := start + 1;
        state := SINGLE_LINE_COMMENT;
        return;
      }
      if c == '/' && start + 1 < |sql| && sql[start + 1] == '*' {
        last := start + 1;
        state := MULTI_LINE_COMMENT;
        return;
      }
      if IsSpace(c) {
        lastPos := start + 1;
        return;
      }
      var opLen := SpecialOperator(sql, start);
      if opLen > 0 {
        tokens := tokens + [sql[start..start + opLen]];
        last := start + opLen - 1;
        lastPos := last + 1;
        return;
      }
      if IsSingleByteOperator(c) {
        assert [c] == sql[start..start + 1];
        tokens := tokens + [[c]];
        lastPos := start + 1;
        return;
      }
      state := if IsInitialNumber(c) then NUMERIC else if IsStringOperator(c) then OPERATOR else KEYWORD;
    }

    /** The other states: looks at the character at `i` of the lexeme that began at `start`. */
    method ContinueLexeme(state: State, start: nat, i: nat) returns (next: State, lastPos: nat, last: nat)
      requires i < |sql| && state != STANDARD && Reading(state, start, i)
      modifies this`tokens
      ensures Continues(start, next, lastPos, last) && (next == STANDARD || i <= last)
    {
      if state == STRING_LITERAL {
        next, lastPos, last := ContinueQuoted(state, '\'', start, i);
      } else if state == QUOTED_IDENTIFIER {
        next, lastPos, last := ContinueQuoted(state, '"', start, i);
      } else if state == SINGLE_LINE_COMMENT || state == MULTI_LINE_COMMENT {
        next, lastPos, last := ContinueComment(state, start, i);
      } else {
        next, lastPos, last := ContinueWord(state, start, i);
      }
    }

    method ContinueComment(state: State, start: nat, i: nat) returns (next: State, lastPos: nat, last: nat)
      requires i < |sql| && (state == SINGLE_LINE_COMMENT || state == MULTI_LINE_COMMENT) && Reading(state, start, i)
      ensures Continues(start, next, lastPos, last) && (next == STANDARD || i <= last)
    {
      StartsAtPair(sql, i, "*/");
      if state == SINGLE_LINE_COMMENT && (sql[i] == '\n' || sql[i] == '\r') {
        return STANDARD, i + 1, i;
      }
      if state == MULTI_LINE_COMMENT && sql[i] == '*' && i + 1 < |sql| && sql[i + 1] == '/' {
        return STANDARD, i + 2, i + 1;
      }
      next, lastPos, last := state, start, i;
    }

    /** A number, operator or keyword: is this character still part of it? */
    method ContinueWord(state: State, start: nat, i: nat) returns (next: State, lastPos: nat, last: nat)
      requires i < |sql| && (state == NUMERIC || state == OPERATOR || state == KEYWORD) && Reading(state, start, i)
      modifies this`tokens
      ensures Continues(start, next, lastPos, last) && (next == STANDARD || i <= last)
    {
      var c := sql[i];
      if (state == NUMERIC && IsNumber(c)) || (state == OPERATOR && IsOperator(c)) || (state == KEYWORD && IsKeyword(c)) {
        return state, start, i;
      }
      var end := i;
      if state == NUMERIC {
        // a number must end with an initial number: go back until it does
        while !IsInitialNumber(sql[end - 1])
          invariant start < end <= i && Backtrack(sql, start, end) == Backtrack(sql, start, i)
          decreases end
        {
          end := end - 1;
        }
      }
      PushToken(start, end);
      next, lastPos, last := STANDARD, end, end - 1;
    }

    method ContinueQuoted(state: State, quote: char, start: nat, i: nat) returns (next: State, lastPos: nat, last: nat)
      requires i < |sql| && Reading(state, start, i)
      requires (state == STRING_LITERAL && quote == '\'') || (state == QUOTED_IDENTIFIER && quote == '"')
      modifies this`tokens
      ensures Continues(start, next, lastPos, last) && (next == STANDARD || i <= last)
    {
      next, lastPos, last := state, start, i;
      assert Munch(sql, state, start, i) == MunchQuoted(sql, state, quote, start, i);
      if sql[i] == quote {
        if i + 1 < |sql| && sql[i + 1] == quote {
          // escaped
          last := i + 1;
        } else {
          PushToken(start, i + 1);
          next, lastPos := STANDARD, i + 1;
        }
      }
    }

    /** One round of the loop: by the state, a lexeme begins or is continued. */
    method Advance(state: State, start: nat, i: nat) returns (next: State, lastPos: nat, last: nat)
      requires i < |sql| && Reading(state, start, i)
      modifies this
      ensures Continues(start, next, lastPos, last) && (next == STANDARD || i <= last)
    {
      if state == STANDARD {
        next, lastPos, last := BeginLexeme(i);
      } else {
        next, lastPos, last := ContinueLexeme(state, start, i);
      }
    }

    /** The end of the input, in a state that began at `start`. */
    method EndInput(state: State, start: nat) returns (complete: bool)
      requires if state == STANDARD then start == |sql| else start < |sql| && Scan(sql, start) == Rest(state)
      modifies this`tokens
      ensures match Lex(sql, start, old(tokens), statements)
              case InComment => !complete
              case Lexed(_, ts, ss) => complete && tokens == ts && statements == ss
    {
      if state != STANDARD {
        LexRest(sql, start, state, tokens, statements);
      }
      var lastPos := start;
      match state {
        case STRING_LITERAL => lastPos := lastPos + 1;
        case SINGLE_LINE_COMMENT => return false;
        case MULTI_LINE_COMMENT => return false;
        case _ =>
      }
      OnLastToken(sql[lastPos..]);
      complete := true;
    }

    /** Reads the whole input. The result says whether it ended outside of a comment. */
    method TokenizeInput() returns (complete: bool)
      requires tokens == [] && statements == []
      modifies this
      ensures match Lex(sql, 0, [], [])
              case InComment => !complete
              case Lexed(_, ts, ss) => complete && tokens == ts && statements == ss
    {
      var state := STANDARD;
      var lastPos: nat := 0;
      var i: nat := 0;
      ghost var outcome := Lex(sql, 0, [], []);
      while i < |sql|
        invariant Reading(state, lastPos, i)
        invariant outcome == Lex(sql, lastPos, tokens, statements)
        decreases |sql| - lastPos, |sql| - i
      {
        ghost var start, before, done := lastPos, tokens, statements;
        state, lastPos, i := Advance(state, lastPos, i);
        if state == STANDARD {
          LexStep(sql, start, before, done, Progress(lastPos, tokens, statements));
        }
        i := i + 1;
      }
      complete := EndInput(state, lastPos);
    }
  }
}
