/** Rule bodies as patterns: the recursive reading of a token sequence, the stack machine that
    builds it from left to right, and the expansion of macro calls. */
module PegPattern {
  import opened Common

  /** Tokens of a rule definition. */
  datatype PegToken =
    | Literal(text: string)
    | Reference(name: string)
    | FunctionCall(name: string)
    | Operator(op: char)
    | Regex(text: string)

  datatype Rule = Rule(parameters: seq<string>, tokens: seq<PegToken>)

  /** What a rule body means. `A*` is `POptional(PRepeat(A))`. */
  datatype Pattern =
    | PKeyword(text: string)
    | PReference(name: string)
    | PGroup(items: seq<Pattern>)
    | POptional(body: Pattern)
    | PRepeat(body: Pattern)
    | PChoice(alternatives: seq<Pattern>)
    | PCall(name: string, items: seq<Pattern>)

  function Last<T>(s: seq<T>): T
    requires s != []
  {
    s[|s| - 1]
  }

  function Front<T>(s: seq<T>): seq<T>
    requires s != []
  {
    s[..|s| - 1]
  }

  // ----- the stack machine ------------------------------------------------------------------------

  /** A list under construction: the rule itself, an open bracket or the argument of a call
      (`call` is empty unless it is one). `awaiting` is set between '/' and the next item. */
  datatype Frame = Frame(call: string, items: seq<Pattern>, awaiting: bool)

  const ROOT := [Frame("", [], false)]

  /** Adds an item to a list, or completes the choice that waits for it. */
  function Place(f: Frame, p: Pattern): Frame {
    if f.awaiting && f.items != []
    then Frame(f.call, Front(f.items) + [PChoice([Last(f.items), p])], false)
    else Frame(f.call, f.items + [p], false)
  }

  function PlaceTop(frames: seq<Frame>, p: Pattern): seq<Frame>
    requires frames != []
  {
    Front(frames) + [Place(Last(frames), p)]
  }

  /** The item a closed bracket or call stands for. */
  function CloseFrame(f: Frame): Pattern {
    if f.call == "" then PGroup(f.items) else PCall(f.call, f.items)
  }

  function Step(token: PegToken, frames: seq<Frame>): (r: Result<seq<Frame>>)
    requires frames != []
    ensures r.Ok? ==> r.value != []
  {
    var top := Last(frames);
    match token
    case Literal(text) => Ok(PlaceTop(frames, PKeyword(text)))
    case Reference(name) => Ok(PlaceTop(frames, PReference(name)))
    case FunctionCall(name) => Ok(frames + [Frame(name, [], false)])
    case Regex(_) => Err("REGEX operator not supported in PEG grammar")
    case Operator(op) =>
      if op == '?' || op == '*' then
        if top.awaiting then Err("Optional/Repeat expected a list matcher")
        else if top.items == [] then Err("Optional/Repeat rule found as first token")
        else
          var last := if op == '*' then PRepeat(Last(top.items)) else Last(top.items);
          Ok(Front(frames) + [top.(items := Front(top.items) + [POptional(last)])])
      else if op == '/' then
        if top.awaiting then Err("OR expected a list matcher")
        else if top.items == [] then Err("OR rule found as first token")
        else Ok(Front(frames) + [top.(awaiting := true)])
      else if op == '(' then Ok(frames + [Frame("", [], false)])
      else if op == ')' then
        // a bracket closed right after '/' closes the choice: it is added to its list again
        if top.awaiting && top.items != [] then
          var lone := PChoice([Last(top.items)]);
          Ok(Front(frames) + [Frame(top.call, Front(top.items) + [lone, lone], false)])
        else if |frames| <= 1 then Err("PEG matcher create error - found too many close brackets")
        else Ok(PlaceTop(Front(frames), CloseFrame(top)))
      else if op == '!' then Ok(frames)
      else Err("unrecognized peg operator type")
  }

  function Elaborate(tokens: seq<PegToken>, frames: seq<Frame>): (r: Result<seq<Frame>>)
    requires frames != []
    ensures r.Ok? ==> r.value != []
  {
    if tokens == [] then Ok(frames)
    else
      match Step(tokens[0], frames)
      case Ok(next) => Elaborate(tokens[1..], next)
      case Err(message) => Err(message)
  }

  lemma {:induction false} ElaborateAppend(a: seq<PegToken>, b: seq<PegToken>, frames: seq<Frame>)
    requires frames != []
    ensures Elaborate(a + b, frames) ==
            match Elaborate(a, frames) case Ok(fs) => Elaborate(b, fs) case Err(m) => Err(m)
  {
    if a == [] {
      assert a + b == b;
    } else {
      assert (a + b)[0] == a[0] && (a + b)[1..] == a[1..] + b;
      match Step(a[0], frames)
      case Ok(next) => ElaborateAppend(a[1..], b, next);
      case Err(_) =>
    }
  }

  /** The body of a rule, if all its brackets and choices are complete. */
  function Body(rule: Rule): Result<seq<Pattern>> {
    match Elaborate(rule.tokens, ROOT)
    case Ok(frames) =>
      if |frames| == 1 && !frames[0].awaiting then Ok(frames[0].items)
      else Err("PEG matcher create error - unclosed bracket found")
    case Err(message) => Err(message)
  }

  // ----- the recursive reading ----------------------------------------------------------------------

  function Print(p: Pattern): seq<PegToken>
    decreases p
  {
    match p
    case PKeyword(text) => [Literal(text)]
    case PReference(name) => [Reference(name)]
    case PGroup(items) => [Operator('(')] + PrintAll(items) + [Operator(')')]
    case PCall(name, items) => [FunctionCall(name)] + PrintAll(items) + [Operator(')')]
    case POptional(PRepeat(q)) => Print(q) + [Operator('*')]
    case POptional(q) => Print(q) + [Operator('?')]
    case PRepeat(q) => Print(q)
    case PChoice(ps) => PrintChoice(ps)
  }

  function PrintAll(ps: seq<Pattern>): seq<PegToken>
    decreases ps, 0
  {
    if ps == [] then [] else PrintAll(Front(ps)) + Print(Last(ps))
  }

  function PrintChoice(ps: seq<Pattern>): seq<PegToken>
    decreases ps, 0
  {
    if ps == [] then []
    else if |ps| == 1 then Print(ps[0])
    else PrintChoice(Front(ps)) + [Operator('/')] + Print(Last(ps))
  }

  /** An item that can follow '/': a keyword, a reference, a bracket or a call. */
  predicate IsItem(p: Pattern) {
    p.PKeyword? || p.PReference? || p.PGroup? || p.PCall?
  }

  /** Patterns the notation can express: '?' and '*' apply to everything read so far as one item,
      and the right side of '/' is a single item. */
  predicate Writable(p: Pattern)
    decreases p
  {
    match p
    case PKeyword(_) => true
    case PReference(_) => true
    case PGroup(items) => WritableAll(items)
    case PCall(name, items) => name != "" && WritableAll(items)
    case POptional(PRepeat(q)) => Writable(q)
    case POptional(q) => Writable(q)
    case PRepeat(_) => false
    case PChoice(ps) => |ps| == 2 && Writable(ps[0]) && Writable(ps[1]) && IsItem(ps[1])
  }

  predicate WritableAll(ps: seq<Pattern>)
    decreases ps, 0
  {
    forall i :: 0 <= i < |ps| ==> Writable(ps[i])
  }

  /** Reading the text of `p` puts exactly `p` where an item may stand. Behind '/' only an item
      is read whole: in `A / B?` the '?' applies to the choice. */
  lemma {:induction false} ReadBack(p: Pattern, frames: seq<Frame>)
    requires frames != [] && Writable(p) && (Last(frames).awaiting ==> IsItem(p) && Last(frames).items != [])
    ensures Elaborate(Print(p), frames) == Ok(PlaceTop(frames, p))
    decreases p, 1
  {
    match p
    case PKeyword(text) => ElaborateOne(Literal(text), frames);
    case PReference(name) => ElaborateOne(Reference(name), frames);
    case PGroup(items) => ReadBackBracket(Operator('('), p, items, frames);
    case PCall(name, items) => ReadBackBracket(FunctionCall(name), p, items, frames);
    case POptional(PRepeat(q)) => ReadBackPostfix('*', p, q, frames);
    case POptional(q) => ReadBackPostfix('?', p, q, frames);
    case PChoice(ps) =>
      var a, b := ps[0], ps[1];
      assert PrintChoice([a]) == Print(a);
      assert Front(ps) == [a] && ps == [a, b];
      assert Print(p) == (Print(a) + [Operator('/')]) + Print(b);
      ReadBack(a, frames);
      var fs := PlaceTop(frames, a);
      ElaborateAppend(Print(a), [Operator('/')], frames);
      ElaborateOne(Operator('/'), fs);
      var gs := Front(fs) + [Last(fs).(awaiting := true)];
      assert Step(Operator('/'), fs) == Ok(gs);
      ElaborateAppend(Print(a) + [Operator('/')], Print(b), frames);
      ReadBack(b, gs);
      assert Front(gs) == Front(frames) && Front(Last(gs).items) == Last(frames).items;
  }

  lemma ElaborateOne(token: PegToken, frames: seq<Frame>)
    requires frames != []
    ensures Elaborate([token], frames) == Step(token, frames)
  {
    assert [token][1..] == [];
  }

  lemma {:induction false} ReadBackPostfix(op: char, p: Pattern, q: Pattern, frames: seq<Frame>)
    requires frames != [] && !Last(frames).awaiting && Writable(q)
    requires (op == '*' && p == POptional(PRepeat(q))) || (op == '?' && p == POptional(q))
    ensures Elaborate(Print(q) + [Operator(op)], frames) == Ok(PlaceTop(frames, p))
    decreases p, 0
  {
    assert q < p;
    ReadBack(q, frames);
    ElaborateAppend(Print(q), [Operator(op)], frames);
    var fs := PlaceTop(frames, q);
    ElaborateOne(Operator(op), fs);
    assert Front(fs) == Front(frames) && Front(Last(fs).items) == Last(frames).items;
  }

  lemma {:induction false} ReadBackBracket(open: PegToken, p: Pattern, items: seq<Pattern>, frames: seq<Frame>)
    requires frames != [] && WritableAll(items)
    requires (open == Operator('(') && p == PGroup(items)) ||
             (open.FunctionCall? && open.name != "" && p == PCall(open.name, items))
    ensures Elaborate([open] + PrintAll(items) + [Operator(')')], frames) == Ok(PlaceTop(frames, p))
    decreases p, 0
  {
    var call := if open.FunctionCall? then open.name else "";
    var fs, gs := frames + [Frame(call, [], false)], frames + [Frame(call, items, false)];
    assert Front(fs) == frames && Front(gs) == frames && [] + items == items;
    assert Elaborate([open], frames) == Ok(fs) by {
      ElaborateOne(open, frames);
    }
    assert Elaborate([open] + PrintAll(items), frames) == Ok(gs) by {
      ElaborateAppend([open], PrintAll(items), frames);
      ReadBackAll(items, fs);
    }
    ElaborateAppend([open] + PrintAll(items), [Operator(')')], frames);
    ElaborateOne(Operator(')'), gs);
  }

  lemma {:induction false} ReadBackAll(items: seq<Pattern>, frames: seq<Frame>)
    requires frames != [] && !Last(frames).awaiting && WritableAll(items)
    ensures Elaborate(PrintAll(items), frames)
            == Ok(Front(frames) + [Last(frames).(items := Last(frames).items + items)])
    decreases items, 0
  {
    if items == [] {
      assert Last(frames).items + [] == Last(frames).items;
      assert Front(frames) + [Last(frames)] == frames;
    } else {
      ReadBackAll(Front(items), frames);
      var fs := Front(frames) + [Last(frames).(items := Last(frames).items + Front(items))];
      ElaborateAppend(PrintAll(Front(items)), Print(Last(items)), frames);
      ReadBack(Last(items), fs);
      assert Front(fs) == Front(frames);
      assert (Last(frames).items + Front(items)) + [Last(items)] == Last(frames).items + items by {
        assert items == Front(items) + [Last(items)];
      }
    }
  }

  /** The machine reads the text of a rule body back to that body. */
  lemma BodyOfPrint(parameters: seq<string>, items: seq<Pattern>)
    requires WritableAll(items)
    ensures Body(Rule(parameters, PrintAll(items))) == Ok(items)
  {
    ReadBackAll(items, ROOT);
    assert [] + items == items;
  }

  // ----- every accepted token sequence is the text of its pattern -----------------------------------

  /** The machine ignores '!'. */
  function Strip(tokens: seq<PegToken>): seq<PegToken> {
    if tokens == [] then []
    else (if tokens[0] == Operator('!') then [] else [tokens[0]]) + Strip(tokens[1..])
  }

  /** No bracket closes directly after '/', and every call has a name. */
  predicate Complete(tokens: seq<PegToken>, afterSlash: bool) {
    tokens == [] ||
    (tokens[0] != FunctionCall("") &&
     !(afterSlash && tokens[0] == Operator(')')) &&
     Complete(tokens[1..], tokens[0] == Operator('/') || (afterSlash && tokens[0] == Operator('!'))))
  }

  function FrameHead(f: Frame, root: bool): seq<PegToken> {
    if root then [] else if f.call == "" then [Operator('(')] else [FunctionCall(f.call)]
  }

  function PrintFrame(f: Frame, root: bool): seq<PegToken> {
    FrameHead(f, root) + PrintAll(f.items) + (if f.awaiting then [Operator('/')] else [])
  }

  /** The tokens read so far. */
  function PrintFrames(frames: seq<Frame>): seq<PegToken> {
    if frames == [] then [] else PrintFrames(Front(frames)) + PrintFrame(Last(frames), |frames| == 1)
  }

  predicate Tidy(f: Frame) {
    WritableAll(f.items) && (f.awaiting ==> f.items != [])
  }

  predicate TidyAll(frames: seq<Frame>) {
    forall i :: 0 <= i < |frames| ==> Tidy(frames[i])
  }

  lemma PrintAllLast(ps: seq<Pattern>, p: Pattern)
    ensures PrintAll(ps + [p]) == PrintAll(ps) + Print(p)
  {
    assert Front(ps + [p]) == ps;
  }

  lemma PrintFramesLast(frames: seq<Frame>, f: Frame)
    ensures PrintFrames(frames + [f]) == PrintFrames(frames) + PrintFrame(f, frames == [])
  {
    assert Front(frames + [f]) == frames;
  }

  lemma PrintBinaryChoice(a: Pattern, b: Pattern)
    ensures Print(PChoice([a, b])) == Print(a) + [Operator('/')] + Print(b)
  {
    assert Front([a, b]) == [a];
    assert PrintChoice([a]) == Print(a);
  }

  lemma PlacePrints(f: Frame, p: Pattern, root: bool)
    requires Tidy(f) && Writable(p) && IsItem(p)
    ensures Tidy(Place(f, p)) && PrintFrame(Place(f, p), root) == PrintFrame(f, root) + Print(p)
  {
    if f.awaiting {
      ChoicePrints(f.items, p);
      PutAtEnd(FrameHead(f, root), PrintAll(f.items), [Operator('/')], Print(p));
    } else {
      PrintAllLast(f.items, p);
      PutAtEnd(FrameHead(f, root), PrintAll(f.items), [], Print(p));
    }
  }

  /** What is printed last may as well belong to the items. */
  lemma PutAtEnd<T>(head: seq<T>, items: seq<T>, tail: seq<T>, more: seq<T>)
    ensures head + (items + tail + more) + [] == (head + items + tail) + more
    ensures tail == [] ==> head + (items + more) + [] == (head + items + tail) + more
  {
  }

  lemma ChoicePrints(items: seq<Pattern>, p: Pattern)
    requires items != []
    ensures PrintAll(Front(items) + [PChoice([Last(items), p])]) == PrintAll(items) + [Operator('/')] + Print(p)
  {
    PrintAllLast(Front(items), PChoice([Last(items), p]));
    PrintBinaryChoice(Last(items), p);
  }

  /** Changing the top frame by `more` tokens changes the whole text by them. */
  lemma TopPrints(frames: seq<Frame>, f: Frame, more: seq<PegToken>, root: bool)
    requires frames != [] && root == (|frames| == 1)
    requires PrintFrame(f, root) == PrintFrame(Last(frames), root) + more
    ensures PrintFrames(Front(frames) + [f]) == PrintFrames(frames) + more
  {
    PrintFramesLast(Front(frames), f);
    Associate(PrintFrames(Front(frames)), PrintFrame(Last(frames), root), more);
  }

  lemma Associate<T>(a: seq<T>, b: seq<T>, c: seq<T>)
    ensures a + (b + c) == (a + b) + c
  {
  }

  lemma PlaceTopPrints(frames: seq<Frame>, p: Pattern)
    requires frames != [] && TidyAll(frames) && Writable(p) && IsItem(p)
    ensures TidyAll(PlaceTop(frames, p))
    ensures PrintFrames(PlaceTop(frames, p)) == PrintFrames(frames) + Print(p)
  {
    PlacePrints(Last(frames), p, |frames| == 1);
    TopPrints(frames, Place(Last(frames), p), Print(p), |frames| == 1);
  }

  /** `next` continues `frames` by the text of `token`. */
  predicate Continues(token: PegToken, frames: seq<Frame>, next: seq<Frame>) {
    next != [] && TidyAll(next) && PrintFrames(next) == PrintFrames(frames) + Strip([token])
  }

  lemma WrapPrints(f: Frame, p: Pattern, op: char, root: bool)
    requires Tidy(f) && !f.awaiting && f.items != [] && Writable(p)
    requires Print(p) == Print(Last(f.items)) + [Operator(op)]
    ensures PrintFrame(f.(items := Front(f.items) + [p]), root) == PrintFrame(f, root) + [Operator(op)]
  {
    PrintAllLast(Front(f.items), p);
    CompletePrints(f.call, f.items, root);
    CompletePrints(f.call, Front(f.items) + [p], root);
    assert PrintAll(f.items) == PrintAll(Front(f.items)) + Print(Last(f.items));
    PutAtEnd(FrameHead(f, root), PrintAll(f.items), [], [Operator(op)]);
  }

  lemma CompletePrints(call: string, items: seq<Pattern>, root: bool)
    ensures PrintFrame(Frame(call, items, false), root) == FrameHead(Frame(call, [], false), root) + PrintAll(items) + []
  {
  }

  lemma PostfixPrints(op: char, p: Pattern, frames: seq<Frame>)
    requires frames != [] && TidyAll(frames) && !Last(frames).awaiting && Last(frames).items != []
    requires op != '!' && Writable(p) && Print(p) == Print(Last(Last(frames).items)) + [Operator(op)]
    ensures Continues(Operator(op), frames,
                      Front(frames) + [Last(frames).(items := Front(Last(frames).items) + [p])])
  {
    var f := Last(frames);
    WrapPrints(f, p, op, |frames| == 1);
    TopPrints(frames, f.(items := Front(f.items) + [p]), [Operator(op)], |frames| == 1);
  }

  lemma SlashPrints(frames: seq<Frame>)
    requires frames != [] && TidyAll(frames) && !Last(frames).awaiting && Last(frames).items != []
    ensures Continues(Operator('/'), frames, Front(frames) + [Last(frames).(awaiting := true)])
  {
    TopPrints(frames, Last(frames).(awaiting := true), [Operator('/')], |frames| == 1);
  }

  lemma ClosePrints(frames: seq<Frame>)
    requires |frames| > 1 && TidyAll(frames) && !Last(frames).awaiting
    ensures Continues(Operator(')'), frames, PlaceTop(Front(frames), CloseFrame(Last(frames))))
  {
    var top := Last(frames);
    assert Writable(CloseFrame(top)) && IsItem(CloseFrame(top));
    PlaceTopPrints(Front(frames), CloseFrame(top));
    PrintFramesLast(Front(frames), top);
    assert PrintFrame(top, false) + [Operator(')')] == Print(CloseFrame(top));
  }

  lemma OpenPrints(frames: seq<Frame>, call: string)
    requires frames != [] && TidyAll(frames)
    ensures Continues(if call == "" then Operator('(') else FunctionCall(call), frames, frames + [Frame(call, [], false)])
  {
    var f := Frame(call, [], false);
    PrintFramesLast(frames, f);
    assert PrintFrame(f, false) == FrameHead(f, false) + [] + [];
  }

  lemma StepPrints(token: PegToken, frames: seq<Frame>, next: seq<Frame>)
    requires frames != [] && TidyAll(frames) && token != FunctionCall("") && Step(token, frames) == Ok(next)
    requires !(Last(frames).awaiting && token == Operator(')'))
    ensures Continues(token, frames, next)
  {
    match token
    case Literal(text) => PlaceTopPrints(frames, PKeyword(text));
    case Reference(name) => PlaceTopPrints(frames, PReference(name));
    case FunctionCall(name) => OpenPrints(frames, name);
    case Operator(op) => OperatorPrints(op, frames, next);
  }

  lemma OperatorPrints(op: char, frames: seq<Frame>, next: seq<Frame>)
    requires frames != [] && TidyAll(frames) && Step(Operator(op), frames) == Ok(next)
    requires !(Last(frames).awaiting && op == ')')
    ensures Continues(Operator(op), frames, next)
  {
    if op == '?' || op == '*' {
      var q := Last(Last(frames).items);
      assert Writable(q);
      PostfixPrints(op, POptional(if op == '*' then PRepeat(q) else q), frames);
    } else if op == '/' {
      SlashPrints(frames);
    } else if op == '(' {
      OpenPrints(frames, "");
    } else if op == ')' {
      ClosePrints(frames);
    } else {
      assert PrintFrames(frames) + [] == PrintFrames(frames);
    }
  }

  lemma StepAwaits(token: PegToken, frames: seq<Frame>, next: seq<Frame>)
    requires frames != [] && TidyAll(frames) && Step(token, frames) == Ok(next)
    requires !(Last(frames).awaiting && token == Operator(')'))
    ensures Last(next).awaiting == (token == Operator('/') || (Last(frames).awaiting && token == Operator('!')))
  {
  }

  lemma {:induction false} StripCons(tokens: seq<PegToken>, before: seq<PegToken>)
    requires tokens != []
    ensures (before + Strip([tokens[0]])) + Strip(tokens[1..]) == before + Strip(tokens)
  {
    var first, rest := if tokens[0] == Operator('!') then [] else [tokens[0]], Strip(tokens[1..]);
    assert [tokens[0]][1..] == [] && first + [] == first;
    assert Strip([tokens[0]]) == first;
    assert (before + first) + rest == before + (first + rest);
  }

  lemma {:induction false} ElaboratePrints(tokens: seq<PegToken>, frames: seq<Frame>, end: seq<Frame>)
    requires frames != [] && TidyAll(frames) && Elaborate(tokens, frames) == Ok(end)
    requires Complete(tokens, Last(frames).awaiting)
    ensures TidyAll(end) && PrintFrames(end) == PrintFrames(frames) + Strip(tokens)
  {
    if tokens == [] {
      assert PrintFrames(frames) + [] == PrintFrames(frames);
    } else {
      var next := Step(tokens[0], frames).value;
      StepPrints(tokens[0], frames, next);
      StepAwaits(tokens[0], frames, next);
      ElaboratePrints(tokens[1..], next, end);
      StripCons(tokens, PrintFrames(frames));
    }
  }

  lemma {:induction false} ElaborateStrip(tokens: seq<PegToken>, frames: seq<Frame>)
    requires frames != []
    ensures Elaborate(Strip(tokens), frames) == Elaborate(tokens, frames)
  {
    if tokens == [] {
    } else if tokens[0] == Operator('!') {
      assert Strip(tokens) == Strip(tokens[1..]);
      ElaborateStrip(tokens[1..], frames);
    } else {
      assert Strip(tokens)[0] == tokens[0] && Strip(tokens)[1..] == Strip(tokens[1..]);
      match Step(tokens[0], frames)
      case Ok(next) => ElaborateStrip(tokens[1..], next);
      case Err(_) =>
    }
  }

  lemma BodyPrints(rule: Rule, items: seq<Pattern>)
    requires Complete(rule.tokens, false) && Body(rule) == Ok(items)
    ensures WritableAll(items) && PrintAll(items) == Strip(rule.tokens)
  {
    var end := Elaborate(rule.tokens, ROOT).value;
    ElaboratePrints(rule.tokens, ROOT, end);
    assert end == [Frame(end[0].call, items, false)];
    PrintFramesLast([], end[0]);
    PrintFramesLast([], ROOT[0]);
    assert [] + [end[0]] == end && [] + [ROOT[0]] == ROOT;
    assert PrintFrames(end) == PrintAll(items) && PrintFrames(ROOT) == [];
  }

  /** A rule body is accepted exactly when, apart from '!', it is the text of a pattern
      sequence; and then it means that sequence. */
  lemma BodyIffPrinted(rule: Rule, items: seq<Pattern>)
    requires Complete(rule.tokens, false)
    ensures Body(rule) == Ok(items) <==> WritableAll(items) && PrintAll(items) == Strip(rule.tokens)
  {
    if Body(rule) == Ok(items) {
      BodyPrints(rule, items);
    }
    if WritableAll(items) && PrintAll(items) == Strip(rule.tokens) {
      ElaborateStrip(rule.tokens, ROOT);
      ReadBackAll(items, ROOT);
      assert [] + items == items;
    }
  }
}
