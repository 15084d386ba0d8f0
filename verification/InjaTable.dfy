/** How expressions are read, operator by operator: what the table of precedences and associativities
    (src/headers/maycloud/inja.hpp:2435-2509) comes to, said by sets of operators and lists of nodes. */
module InjaTable {
  import opened InjaSyntax
  import opened InjaParser
  import opened InjaParserProofs
  import opened InjaCommas
  import opened Seqs
  import opened Wrappers

  const LOGICAL: set<Op> := {And, Or}
  const COMPARING: set<Op> := {In, Equal, NotEqual, Greater, GreaterEqual, Less, LessEqual}
  const ADDING: set<Op> := {Add, Subtract}
  const MULTIPLYING: set<Op> := {Multiplication, Division, Modulo}

  /** a first b second c is (a first b) second c, and not a first (b second c). */
  predicate GroupsLeft(first: Op, second: Op) {
    if first in LOGICAL then second in LOGICAL
    else if first in COMPARING then second in LOGICAL + COMPARING
    else if first in ADDING then second in LOGICAL + COMPARING + ADDING
    else if first in MULTIPLYING then second in LOGICAL + COMPARING + ADDING + MULTIPLYING
    else second != Power
  }

  /** The token of an operator. */
  function Spelled(op: Op): Token {
    match op
    case And => Id("and")
    case Or => Id("or")
    case In => Id("in")
    case Not => Id("not")
    case _ => Symbol(op)
  }

  // ----- Operands that owe nothing to the table: every operator inside stands in parentheses of its own

  predicate Operand(functions: Functions, e: Expr)
    decreases e, 0
  {
    match e
    case Literal(_) => true
    case Variable(name) => name !in {"and", "or", "in", "not", "true", "false", "null"}
    case Paren(inner) => Inner(functions, inner)
    case _ => false
  }

  predicate Inner(functions: Functions, e: Expr)
    decreases e, 1
  {
    match e
    case Unary(x) => Operand(functions, x)
    case Binary(op, l, r) => op != Not && Operand(functions, l) && Operand(functions, r)
    case Call(name, args) =>
      name !in {"true", "false", "null"} && Known(functions, name, |args|) && Operands(functions, args)
    case _ => Operand(functions, e)
  }

  predicate Operands(functions: Functions, args: seq<Expr>)
    decreases args, 0
  {
    args != [] ==> Operand(functions, args[0]) && Operands(functions, args[1..])
  }

  /** A function with this number of arguments, or with any number of them but none. */
  predicate Known(functions: Functions, name: string, args: nat) {
    (name, args) in functions || (args > 0 && (name, -1) in functions)
  }

  lemma {:induction false} OperandIsSound(functions: Functions, e: Expr)
    requires Operand(functions, e)
    ensures Sound(functions, e) && Closed(e)
    decreases e, 0
  {
    match e
    case Paren(inner) => InnerIsSound(functions, inner);
    case _ =>
  }

  lemma {:induction false} InnerIsSound(functions: Functions, e: Expr)
    requires Inner(functions, e)
    ensures Sound(functions, e)
    decreases e, 1
  {
    match e
    case Unary(x) => OperandIsSound(functions, x);
    case Binary(op, l, r) =>
      OperandIsSound(functions, l);
      OperandIsSound(functions, r);
    case Call(name, args) => OperandsAreSound(functions, args);
    case _ => OperandIsSound(functions, e);
  }

  lemma {:induction false} OperandsAreSound(functions: Functions, args: seq<Expr>)
    requires Operands(functions, args)
    ensures SoundArgs(functions, args)
    decreases args, 0
  {
    if args != [] {
      OperandIsSound(functions, args[0]);
      OperandsAreSound(functions, args[1..]);
    }
  }

  // ----- Two operators in a row

  lemma SpelledSo(op: Op)
    ensures OpToken(op) == Spelled(op)
  {
  }

  lemma TwoTokens(first: Op, second: Op, a: Expr, b: Expr, c: Expr)
    ensures var line := Tokens(a) + [Spelled(first)] + Tokens(b) + [Spelled(second)] + Tokens(c);
            && Tokens(Binary(second, Binary(first, a, b), c)) == line
            && Tokens(Binary(first, a, Binary(second, b, c))) == line
  {
    SpelledSo(first);
    SpelledSo(second);
    Assoc4(Tokens(a) + [Spelled(first)], Tokens(b), [Spelled(second)], Tokens(c));
    Assoc(Tokens(b), [Spelled(second)], Tokens(c));
  }

  /** For every two binary operators and all operands: which of the two is applied first. Words stand apart
      from parentheses, which is an error otherwise. */
  lemma TwoOperators(functions: Functions, first: Op, second: Op, a: Expr, b: Expr, c: Expr)
    requires first != Not && second != Not
    requires Operand(functions, a) && Operand(functions, b) && Operand(functions, c)
    requires WordsApart(Binary(second, Binary(first, a, b), c))
    ensures Parse(functions, Tokens(a) + [Spelled(first)] + Tokens(b) + [Spelled(second)] + Tokens(c)) ==
            var (x, y, z) := (Postfix(functions, a), Postfix(functions, b), Postfix(functions, c));
            Ok(if GroupsLeft(first, second) then x + y + [Apply(first)] + z + [Apply(second)]
               else x + (y + z + [Apply(second)]) + [Apply(first)])
  {
    hide Parse, Tokens, WordsApart, Operand, Sound, GroupsLeft, Spelled, Postfix;
    TwoTokens(first, second, a, b, c);
    TwoPostfix(functions, first, second, a, b, c);
    TableDecides(functions, first, second, a, b, c);
    WordsAlike(first, second, a, b, c);
    if GroupsLeft(first, second) {
      ParserIsPostfix(functions, Binary(second, Binary(first, a, b), c));
    } else {
      ParserIsPostfix(functions, Binary(first, a, Binary(second, b, c)));
    }
  }

  lemma TwoPostfix(functions: Functions, first: Op, second: Op, a: Expr, b: Expr, c: Expr)
    ensures Postfix(functions, Binary(second, Binary(first, a, b), c)) ==
            Postfix(functions, a) + Postfix(functions, b) + [Apply(first)] + Postfix(functions, c) + [Apply(second)]
    ensures Postfix(functions, Binary(first, a, Binary(second, b, c))) ==
            Postfix(functions, a) + (Postfix(functions, b) + Postfix(functions, c) + [Apply(second)]) + [Apply(first)]
  {
  }

  /** What the precedences and associativities decide. */
  lemma TableDecides(functions: Functions, first: Op, second: Op, a: Expr, b: Expr, c: Expr)
    requires first != Not && second != Not
    requires Operand(functions, a) && Operand(functions, b) && Operand(functions, c)
    ensures GroupsLeft(first, second) ==> Sound(functions, Binary(second, Binary(first, a, b), c))
    ensures !GroupsLeft(first, second) ==> Sound(functions, Binary(first, a, Binary(second, b, c)))
  {
    hide Sound, Operand, Closed, Pops, GroupsLeft;
    OperandIsSound(functions, a);
    OperandIsSound(functions, b);
    OperandIsSound(functions, c);
    PopsAsGrouped(first, second);
    if GroupsLeft(first, second) {
      JoinIsSound(functions, first, a, b);
      JoinIsSound(functions, second, Binary(first, a, b), c);
    } else {
      JoinIsSound(functions, second, b, c);
      JoinIsSound(functions, first, a, Binary(second, b, c));
    }
  }

  lemma PopsAsGrouped(first: Op, second: Op)
    requires first != Not && second != Not
    ensures Pops(Apply(first), second) <==> GroupsLeft(first, second)
  {
  }

  lemma JoinIsSound(functions: Functions, op: Op, l: Expr, r: Expr)
    requires op != Not && Sound(functions, l) && Sound(functions, r)
    requires Closed(l) || LeftBare(l, op)
    requires Closed(r) || RightBare(r, op)
    ensures Sound(functions, Binary(op, l, r))
  {
  }

  lemma WordsAlike(first: Op, second: Op, a: Expr, b: Expr, c: Expr)
    requires WordsApart(Binary(second, Binary(first, a, b), c))
    ensures WordsApart(Binary(first, a, Binary(second, b, c)))
  {
    FirstOf(Tokens(b), [OpToken(second)] + Tokens(c));
    Assoc(Tokens(b), [OpToken(second)], Tokens(c));
  }

  // ----- not

  /** not a op b is (not a) op b, except for not a ^ b, which is not (a ^ b). */
  lemma NotFirstOperand(functions: Functions, op: Op, a: Expr, b: Expr)
    requires op != Not && Operand(functions, a) && Operand(functions, b) && WordsApart(Binary(op, Unary(a), b))
    ensures Parse(functions, [Id("not")] + Tokens(a) + [Spelled(op)] + Tokens(b)) ==
            Ok(if op == Power then Postfix(functions, a) + Postfix(functions, b) + [Apply(Power)] + [Apply(Not)]
               else Postfix(functions, a) + [Apply(Not)] + Postfix(functions, b) + [Apply(op)])
  {
    hide Parse, Sound, Operand, Spelled;
    NotTokens(op, a, b);
    NotDecides(functions, op, a, b);
    if op == Power {
      ParserIsPostfix(functions, Unary(Binary(op, a, b)));
    } else {
      ParserIsPostfix(functions, Binary(op, Unary(a), b));
    }
  }

  lemma NotTokens(op: Op, a: Expr, b: Expr)
    ensures Tokens(Binary(op, Unary(a), b)) == [Id("not")] + Tokens(a) + [Spelled(op)] + Tokens(b)
    ensures Tokens(Unary(Binary(op, a, b))) == [Id("not")] + Tokens(a) + [Spelled(op)] + Tokens(b)
    ensures StartsOpen(Binary(op, a, b)) == StartsOpen(a)
  {
    SpelledSo(op);
    Assoc4([Id("not")], Tokens(a), [Spelled(op)], Tokens(b));
    Assoc(Tokens(a), [Spelled(op)], Tokens(b));
    FirstOf(Tokens(a), [Spelled(op)] + Tokens(b));
  }

  lemma NotDecides(functions: Functions, op: Op, a: Expr, b: Expr)
    requires op != Not && Operand(functions, a) && Operand(functions, b)
    ensures op == Power ==> Sound(functions, Unary(Binary(op, a, b)))
    ensures op != Power ==> Sound(functions, Binary(op, Unary(a), b))
    ensures op in LOGICAL + COMPARING + ADDING ==> Sound(functions, Binary(op, a, Unary(b)))
  {
    hide Operand, Sound;
    OperandIsSound(functions, a);
    OperandIsSound(functions, b);
    if op == Power {
      JoinIsSound(functions, op, a, b);
      NotIsSound(functions, Binary(op, a, b));
    } else {
      NotIsSound(functions, a);
      JoinIsSound(functions, op, Unary(a), b);
      if op in LOGICAL + COMPARING + ADDING {
        NotIsSound(functions, b);
        JoinIsSound(functions, op, a, Unary(b));
      }
    }
  }

  lemma NotIsSound(functions: Functions, x: Expr)
    requires Sound(functions, x) && RightBare(x, Not)
    ensures Sound(functions, Unary(x))
  {
  }

  /** a op not b is a op (not b) for the operators that bind less than not. The others are applied before
      their second operand is there. */
  lemma NotSecondOperand(functions: Functions, op: Op, a: Expr, b: Expr)
    requires op != Not && Operand(functions, a) && Operand(functions, b) && WordsApart(Binary(op, a, Unary(b)))
    ensures Parse(functions, Tokens(a) + [Spelled(op)] + ([Id("not")] + Tokens(b))) ==
            Ok(if op in LOGICAL + COMPARING + ADDING
               then Postfix(functions, a) + (Postfix(functions, b) + [Apply(Not)]) + [Apply(op)]
               else Postfix(functions, a) + [Apply(op)] + Postfix(functions, b) + [Apply(Not)])
  {
    hide Parse, Sound, Operand, Spelled, WordsApart;
    SpelledSo(op);
    NotDecides(functions, op, a, b);
    if op in LOGICAL + COMPARING + ADDING {
      ParserIsPostfix(functions, Binary(op, a, Unary(b)));
    } else {
      TooEarly(functions, op, a, b);
    }
  }

  lemma TooEarly(functions: Functions, op: Op, a: Expr, b: Expr)
    requires op in MULTIPLYING + {Power} && Operand(functions, a) && Operand(functions, b)
    requires WordsApart(Binary(op, a, Unary(b)))
    ensures Parse(functions, Tokens(a) + [Spelled(op)] + ([Id("not")] + Tokens(b))) ==
            Ok(Postfix(functions, a) + [Apply(op)] + Postfix(functions, b) + [Apply(Not)])
  {
    hide Run, Postfix, Tokens, After, Spelled, Operand, AfterNot;
    SpelledSo(op);
    NotSpelled(b);
    TooEarlyLeft(functions, op, a, b);
    TooEarlyRight(functions, op, a, b);
    TooEarlyEnds(functions, op, a, b);
  }

  /** The state when a op not has been read, for an operator that not makes wait no longer. */
  function AfterNot(functions: Functions, op: Op, a: Expr): State {
    Start().(output := Postfix(functions, a) + [Apply(op)], operators := [Apply(Not)])
  }

  lemma NotSpelled(b: Expr)
    ensures [Id("not")] + Tokens(b) == Tokens(Unary(b))
  {
  }

  lemma TooEarlyLeft(functions: Functions, op: Op, a: Expr, b: Expr)
    requires op in MULTIPLYING + {Power} && Operand(functions, a)
    requires WordsApart(Binary(op, a, Unary(b)))
    ensures Run(functions, Start(), Tokens(a) + [OpToken(op)] + Tokens(Unary(b))) ==
            Run(functions, AfterNot(functions, op, a), Tokens(b))
  {
    hide Run, Step, Postfix;
    var s, tail := Start(), Tokens(Unary(b));
    OperandIsSound(functions, a);
    Assoc(Tokens(a), [OpToken(op)], tail);
    ParseExpr(functions, a, s, [OpToken(op)] + tail);
    ReadBinary(functions, op, a, s, tail);
    Empty(tail);
    NotRead(functions, b, AfterLeft(functions, s, op, a), []);
    Empty(Tokens(b));
    NotPops(functions, op, a);
  }

  lemma TooEarlyRight(functions: Functions, op: Op, a: Expr, b: Expr)
    requires Operand(functions, b) && WordsApart(b)
    ensures var u := AfterNot(functions, op, a); Run(functions, u, Tokens(b)) == Ok(After(functions, u, b))
  {
    var u := AfterNot(functions, op, a);
    OperandIsSound(functions, b);
    ParseExpr(functions, b, u, []);
    Empty(Tokens(b));
  }

  lemma TooEarlyEnds(functions: Functions, op: Op, a: Expr, b: Expr)
    requires Operand(functions, b)
    ensures PopAll(After(functions, AfterNot(functions, op, a), b)).output ==
            Postfix(functions, a) + [Apply(op)] + Postfix(functions, b) + [Apply(Not)]
  {
    hide Postfix;
    var u := After(functions, AfterNot(functions, op, a), b);
    Empty([Apply(Not)]);
    PopAllOutput(u);
    ReverseOne(Apply(Not));
    assert u.operators == [Apply(Not)];
  }

  lemma NotPops(functions: Functions, op: Op, a: Expr)
    requires op in MULTIPLYING + {Power}
    ensures ReadOperator(AfterLeft(functions, Start(), op, a), Not) == AfterNot(functions, op, a)
  {
    var t := AfterLeft(functions, Start(), op, a);
    Empty([Apply(op)]);
    Empty(Postfix(functions, a));
    PopForAll(t, [], [Apply(op)], Not);
    ReverseOne(Apply(op));
    Empty([Apply(Not)]);
  }

  // ----- Calls, and what is refused

  /** A call of operands: the entry for the exact number of arguments, or else the one for any number, or else
      an error. */
  lemma CallResolves(functions: Functions, name: string, args: seq<Expr>)
    requires name !in {"true", "false", "null"} && Operands(functions, args) && WordsApartArgs(args)
    ensures Parse(functions, Tokens(Call(name, args))) ==
            if (name, |args|) in functions then
              Ok(ArgsPostfix(functions, args) + [Invoke(name, |args|, Some(functions[(name, |args|)]))])
            else if |args| > 0 && (name, -1) in functions then
              Ok(ArgsPostfix(functions, args) + [Invoke(name, |args|, Some(functions[(name, -1)]))])
            else Err(UnknownFunction(name))
  {
    OperandsAreSound(functions, args);
    if Known(functions, name, |args|) {
      ParserIsPostfix(functions, Call(name, args));
    } else {
      UnknownFails(functions, name, args);
    }
  }

  lemma UnknownFails(functions: Functions, name: string, args: seq<Expr>)
    requires !Reserved(name) && SoundArgs(functions, args) && WordsApartArgs(args)
    requires FindFunction(functions, name, |args|).None?
    ensures Parse(functions, Tokens(Call(name, args))) == Err(UnknownFunction(name))
  {
    hide Run, Step;
    var s, close := Start(), [RightParen];
    Empty(Tokens(Call(name, args)));
    Empty(close);
    OpenCallAt(functions, name, args, s, []);
    if args == [] {
      Empty(Entered(s, name, 0).operators);
      CloseUnknown(functions, name, 0, [], [], close);
    } else {
      var last := args[|args| - 1];
      Empty(Entered(s, name, 1).operators);
      ParseArgs(functions, args, s, name, 1, [], [], close);
      PendingNodes(functions, last);
      var output := [] + Reverse([]) + ArgsEmitted(functions, args);
      CloseUnknown(functions, name, |args|, output, Pending(functions, last), close);
    }
  }

  lemma CloseUnknown(
      functions: Functions, name: string, count: nat, output: seq<Node>, waiting: seq<Node>, close: seq<Token>)
    requires FindFunction(functions, name, count).None? && close == [RightParen]
    requires forall n :: n in waiting ==> !n.Open?
    ensures Run(functions, Held(Start(), name, count, output, waiting), close) == Err(UnknownFunction(name))
  {
    var s := Start();
    var u, node := Held(s, name, count, output, waiting), Invoke(name, count, None);
    PopToOpenAll(u, Entered(s, name, count).operators, waiting);
    SnocAppend(s.operators, [node], Open);
    Empty([node]);
    Snoc(s.calls, OpenCall(0, 0));
    Empty(close);
    assert Step(functions, u, RightParen, First([])) == Err(UnknownFunction(name));
    RunCons(functions, u, RightParen, []);
  }

  /** Outside of a call a comma is an error, a colon is one anywhere, and a parenthesis that closes nothing is
      undefined. */
  lemma StrayTokens(functions: Functions, e: Expr, rest: seq<Token>)
    requires Operand(functions, e) && WordsApart(e)
    ensures Parse(functions, Tokens(e) + ([Comma] + rest)) == Err(UnexpectedComma)
    ensures Parse(functions, Tokens(e) + ([Colon] + rest)) == Err(UnexpectedColon)
    ensures Parse(functions, Tokens(e) + ([RightParen] + rest)) == Err(Undefined)
  {
    hide Run;
    OperandIsSound(functions, e);
    var s := Start();
    var t := After(functions, s, e);
    assert t.operators == [] && t.calls == [];
    ParseExpr(functions, e, s, [Comma] + rest);
    ParseExpr(functions, e, s, [Colon] + rest);
    ParseExpr(functions, e, s, [RightParen] + rest);
    RunCons(functions, t, Comma, rest);
    RunCons(functions, t, Colon, rest);
    RunCons(functions, t, RightParen, rest);
  }
}
