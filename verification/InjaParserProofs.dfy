/** The parser turns an expression, written with the parentheses the table asks for, into its postfix order. */
module InjaParserProofs {
  import opened InjaSyntax
  import opened InjaParser
  import opened Seqs
  import opened Wrappers

  /** What the parser has put out after reading e. */
  function Emitted(functions: Functions, e: Expr): seq<Node> {
    match e
    case Unary(x) => Emitted(functions, x)
    case Binary(op, l, r) => Postfix(functions, l) + Emitted(functions, r)
    case Call(name, args) => ArgsPostfix(functions, args)
    case _ => Postfix(functions, e)
  }

  /** What of e then still waits on the operator stack, bottom first. */
  function Pending(functions: Functions, e: Expr): seq<Node> {
    match e
    case Unary(x) => [Apply(Not)] + Pending(functions, x)
    case Binary(op, l, r) => [Apply(op)] + Pending(functions, r)
    case Call(name, args) => [Invoke(name, |args|, FindFunction(functions, name, |args|))]
    case _ => []
  }

  function Reverse<T>(s: seq<T>): (r: seq<T>)
    ensures |r| == |s|
  {
    if s == [] then [] else Reverse(s[1..]) + [s[0]]
  }

  lemma {:induction false} ReverseLast<T>(s: seq<T>, x: T)
    ensures Reverse(s + [x]) == [x] + Reverse(s)
  {
    if s == [] {
      assert [x][1..] == [];
    } else {
      assert (s + [x])[1..] == s[1..] + [x];
      ReverseLast(s[1..], x);
      Assoc([x], Reverse(s[1..]), [s[0]]);
    }
  }

  lemma ReverseCons<T>(x: T, s: seq<T>)
    ensures Reverse([x] + s) == Reverse(s) + [x]
  {
    Cons(x, s);
  }

  /** The output and the waiting operators together are the postfix order. */
  lemma {:induction false} EmittedPending(functions: Functions, e: Expr)
    ensures Emitted(functions, e) + Reverse(Pending(functions, e)) == Postfix(functions, e)
  {
    hide Reverse;
    match e
    case Unary(x) =>
      EmittedPending(functions, x);
      ReverseCons(Apply(Not), Pending(functions, x));
      Assoc(Emitted(functions, x), Reverse(Pending(functions, x)), [Apply(Not)]);
    case Binary(op, l, r) =>
      EmittedPending(functions, r);
      ReverseCons(Apply(op), Pending(functions, r));
      Assoc4(Postfix(functions, l), Emitted(functions, r), Reverse(Pending(functions, r)), [Apply(op)]);
      Assoc(Postfix(functions, l), Emitted(functions, r), Reverse(Pending(functions, r)));
      Assoc(Emitted(functions, r), Reverse(Pending(functions, r)), [Apply(op)]);
      Assoc(Postfix(functions, l), Postfix(functions, r), [Apply(op)]);
    case Call(name, args) =>
      ReverseOne(Pending(functions, e)[0]);
    case _ =>
      ReverseNone<Node>();
      Empty(Postfix(functions, e));
  }

  lemma ReverseOne<T>(x: T)
    ensures Reverse([x]) == [x]
  {
    ReverseCons(x, []);
    Empty([x]);
  }

  lemma ReverseNone<T>()
    ensures Reverse<T>([]) == []
  {
  }

  /** Every node waiting binds at least as tightly as the root. */
  lemma {:induction false} PendingBinds(functions: Functions, e: Expr)
    requires Tabled(functions, e)
    ensures forall n :: n in Pending(functions, e) ==> !n.Open?
    ensures RootOp(e).Some? ==>
              forall n :: n in Pending(functions, e) ==> NodePrecedence(n) >= Precedence(RootOp(e).value)
    ensures RootOp(e).None? ==> forall n :: n in Pending(functions, e) ==> NodePrecedence(n) == 8
  {
    match e
    case Unary(x) => PendingBinds(functions, x);
    case Binary(op, l, r) => PendingBinds(functions, r);
    case _ =>
  }

  /** An operator that needs no parentheses around its left operand pops all of it. */
  lemma LeftPops(functions: Functions, l: Expr, op: Op)
    requires Tabled(functions, l) && LeftBare(l, op)
    ensures forall n :: n in Pending(functions, l) ==> Pops(n, op)
  {
    PendingBinds(functions, l);
  }

  /** Nothing below will be popped by the first operator of e. */
  predicate Settled(operators: seq<Node>, e: Expr) {
    operators != [] && RootOp(e).Some? ==> !Pops(Top(operators), RootOp(e).value)
  }

  lemma SettledLeft(operators: seq<Node>, op: Op, l: Expr)
    requires LeftBare(l, op) && (operators != [] ==> !Pops(Top(operators), op))
    ensures Settled(operators, l)
  {
  }

  lemma LastOf<T>(s: seq<T>)
    requires s != []
    ensures s == Pop(s) + [Top(s)] && Top(s) in s && forall x :: x in Pop(s) ==> x in s
  {
  }

  lemma {:induction false} PopForAll(s: State, base: seq<Node>, waiting: seq<Node>, op: Op)
    requires s.operators == base + waiting
    requires base != [] ==> !Pops(Top(base), op)
    requires forall n :: n in waiting ==> Pops(n, op)
    ensures PopFor(s, op) == s.(output := s.output + Reverse(waiting), operators := base)
    decreases |waiting|
  {
    Empty(base);
    Empty(s.output);
    if waiting != [] {
      var n := Top(waiting);
      LastOf(waiting);
      SnocAppend(base, Pop(waiting), n);
      ReverseLast(Pop(waiting), n);
      var t := s.(output := s.output + [n], operators := Pop(s.operators));
      PopForAll(t, base, Pop(waiting), op);
      Assoc(s.output, [n], Reverse(Pop(waiting)));
    }
  }

  lemma {:induction false} PopToOpenAll(s: State, base: seq<Node>, waiting: seq<Node>)
    requires s.operators == base + waiting
    requires base != [] && Top(base).Open?
    requires forall n :: n in waiting ==> !n.Open?
    ensures PopToOpen(s) == s.(output := s.output + Reverse(waiting), operators := base)
    decreases |waiting|
  {
    Empty(base);
    Empty(s.output);
    if waiting != [] {
      var n := Top(waiting);
      LastOf(waiting);
      SnocAppend(base, Pop(waiting), n);
      ReverseLast(Pop(waiting), n);
      var t := s.(output := s.output + [n], operators := Pop(s.operators));
      PopToOpenAll(t, base, Pop(waiting));
      Assoc(s.output, [n], Reverse(Pop(waiting)));
    }
  }

  lemma {:induction false} PopAllOutput(s: State)
    ensures PopAll(s).output == s.output + Reverse(s.operators)
    decreases |s.operators|
  {
    if s.operators != [] {
      var n := Top(s.operators);
      PopAllOutput(s.(output := s.output + [n], operators := Pop(s.operators)));
      ReverseLast(Pop(s.operators), n);
      assert s.operators == Pop(s.operators) + [n];
    }
  }

  function First<T>(s: seq<T>): Option<T> {
    if s == [] then None else Some(s[0])
  }

  lemma RunCons(functions: Functions, s: State, t: Token, rest: seq<Token>)
    ensures Run(functions, s, [t] + rest) ==
            match Step(functions, s, t, First(rest))
            case Ok(u) => Run(functions, u, rest)
            case Err(e) => Err(e)
  {
    assert ([t] + rest)[1..] == rest;
  }

  lemma {:induction false} NeverStartsClosed(e: Expr)
    ensures !Tokens(e)[0].RightParen?
  {
    match e
    case Binary(op, l, r) => NeverStartsClosed(l);
    case _ =>
  }

  /** The state after e: its output, and what of it waits. */
  function After(functions: Functions, s: State, e: Expr): State {
    s.(output := s.output + Emitted(functions, e), operators := s.operators + Pending(functions, e))
  }

  /** No call waits for a parenthesis at this level. */
  predicate Inside(s: State) { s.calls != [] ==> Top(s.calls).level < s.level }

  predicate Continues(rest: seq<Token>) { rest != [] ==> !rest[0].LeftParen? }

  /** Reading e where its operators pop nothing below has the effect After, whatever follows. */
  lemma {:induction false} ParseExpr(functions: Functions, e: Expr, s: State, rest: seq<Token>)
    requires Sound(functions, e) && WordsApart(e) && Settled(s.operators, e) && Inside(s) && Continues(rest)
    ensures Run(functions, s, Tokens(e) + rest) == Run(functions, After(functions, s, e), rest)
    decreases e, 1
  {
    Empty(s.operators);
    match e
    case Literal(text) => RunCons(functions, s, if Reserved(text) then Id(text) else Lit(text), rest);
    case Variable(name) => RunCons(functions, s, Id(name), rest);
    case Paren(inner) =>
      OpenParen(functions, inner, s, rest);
      ParseExpr(functions, inner, s.(operators := s.operators + [Open], level := s.level + 1), [RightParen] + rest);
      CloseParen(functions, inner, s, rest);
    case Unary(x) =>
      ReadNot(functions, x, s, rest);
      ParseExpr(functions, x, s.(operators := s.operators + [Apply(Not)]), rest);
      Assoc(s.operators, [Apply(Not)], Pending(functions, x));
    case Binary(_, _, _) => ParseBinary(functions, e, s, rest);
    case Call(name, args) => ParseCall(functions, name, args, s, rest);
  }

  lemma {:induction false} ParseBinary(functions: Functions, e: Expr, s: State, rest: seq<Token>)
    requires e.Binary? && Sound(functions, e) && WordsApart(e) && Settled(s.operators, e) && Inside(s)
    requires Continues(rest)
    ensures Run(functions, s, Tokens(e) + rest) == Run(functions, After(functions, s, e), rest)
    decreases e, 0
  {
    var op, l, r := e.op, e.left, e.right;
    var tail := Tokens(r) + rest;
    SettledLeft(s.operators, op, l);
    ParseExpr(functions, l, s, [OpToken(op)] + tail);
    ReadBinary(functions, op, l, s, tail);
    ParseExpr(functions, r, AfterLeft(functions, s, op, l), rest);
    BinaryDone(functions, op, l, r, s, rest);
  }

  lemma FirstOf<T>(a: seq<T>, b: seq<T>)
    requires a != []
    ensures First(a + b) == Some(a[0])
  {
  }

  lemma OpenParen(functions: Functions, inner: Expr, s: State, rest: seq<Token>)
    ensures var t := s.(operators := s.operators + [Open], level := s.level + 1);
            Run(functions, s, Tokens(Paren(inner)) + rest) == Run(functions, t, Tokens(inner) + ([RightParen] + rest))
  {
    var close := [RightParen] + rest;
    var tail := Tokens(inner) + close;
    Assoc4([LeftParen], Tokens(inner), [RightParen], rest);
    FirstOf(Tokens(inner), close);
    NeverStartsClosed(inner);
    var t := s.(operators := s.operators + [Open], level := s.level + 1);
    assert Step(functions, s, LeftParen, First(tail)) == Ok(t);
    RunCons(functions, s, LeftParen, tail);
  }

  lemma CloseParen(functions: Functions, inner: Expr, s: State, rest: seq<Token>)
    requires Sound(functions, inner) && Inside(s)
    ensures var t := s.(operators := s.operators + [Open], level := s.level + 1);
            Run(functions, After(functions, t, inner), [RightParen] + rest) ==
            Run(functions, After(functions, s, Paren(inner)), rest)
  {
    var t := s.(operators := s.operators + [Open], level := s.level + 1);
    var u := After(functions, t, inner);
    PendingBinds(functions, inner);
    PopToOpenAll(u, t.operators, Pending(functions, inner));
    EmittedPending(functions, inner);
    Assoc(s.output, Emitted(functions, inner), Reverse(Pending(functions, inner)));
    Snoc(s.operators, Open);
    Empty(s.operators);
    assert Step(functions, u, RightParen, First(rest)) == Ok(After(functions, s, Paren(inner)));
    RunCons(functions, u, RightParen, rest);
  }

  lemma ReadNot(functions: Functions, x: Expr, s: State, rest: seq<Token>)
    requires !StartsOpen(x) && Settled(s.operators, Unary(x))
    ensures Run(functions, s, Tokens(Unary(x)) + rest) ==
            Run(functions, s.(operators := s.operators + [Apply(Not)]), Tokens(x) + rest)
  {
    assert Tokens(Unary(x)) + rest == [OpToken(Not)] + (Tokens(x) + rest);
    Empty(s.operators);
    Empty(s.output);
    PopForAll(s, s.operators, [], Not);
    RunCons(functions, s, OpToken(Not), Tokens(x) + rest);
  }

  /** The left operand is out, the operator waits. */
  function AfterLeft(functions: Functions, s: State, op: Op, l: Expr): State {
    s.(output := s.output + Postfix(functions, l), operators := s.operators + [Apply(op)])
  }

  /** Reading an operator puts out all that waited of its left operand. */
  lemma OperatorPops(functions: Functions, op: Op, l: Expr, s: State)
    requires Sound(functions, l) && LeftBare(l, op) && (s.operators != [] ==> !Pops(Top(s.operators), op))
    ensures ReadOperator(After(functions, s, l), op) == AfterLeft(functions, s, op, l)
  {
    var u := After(functions, s, l);
    LeftPops(functions, l, op);
    PopForAll(u, s.operators, Pending(functions, l), op);
    EmittedPending(functions, l);
    Assoc(s.output, Emitted(functions, l), Reverse(Pending(functions, l)));
  }

  lemma ReadBinary(functions: Functions, op: Op, l: Expr, s: State, tail: seq<Token>)
    requires Sound(functions, l) && LeftBare(l, op) && (s.operators != [] ==> !Pops(Top(s.operators), op))
    requires Word(op).Some? ==> Continues(tail)
    ensures Run(functions, After(functions, s, l), [OpToken(op)] + tail) ==
              Run(functions, AfterLeft(functions, s, op, l), tail)
  {
    var u := After(functions, s, l);
    OperatorPops(functions, op, l, s);
    assert Step(functions, u, OpToken(op), First(tail)) == Ok(ReadOperator(u, op));
    RunCons(functions, u, OpToken(op), tail);
  }

  lemma BinaryDone(functions: Functions, op: Op, l: Expr, r: Expr, s: State, rest: seq<Token>)
    ensures Tokens(Binary(op, l, r)) + rest == Tokens(l) + ([OpToken(op)] + (Tokens(r) + rest))
    ensures After(functions, AfterLeft(functions, s, op, l), r) == After(functions, s, Binary(op, l, r))
  {
    Assoc4(Tokens(l), [OpToken(op)], Tokens(r), rest);
    Assoc(s.operators, [Apply(op)], Pending(functions, r));
    Assoc(s.output, Postfix(functions, l), Emitted(functions, r));
  }

  lemma {:induction false} ParseCall(functions: Functions, name: string, args: seq<Expr>, s: State, rest: seq<Token>)
    requires Sound(functions, Call(name, args)) && WordsApart(Call(name, args)) && Inside(s)
    ensures Run(functions, s, Tokens(Call(name, args)) + rest) ==
              Run(functions, After(functions, s, Call(name, args)), rest)
    decreases args, 2
  {
    hide Run, Step;
    var close := [RightParen] + rest;
    OpenCallAt(functions, name, args, s, rest);
    var u := Entered(s, name, if args == [] then 0 else 1);
    if args == [] {
      Empty(close);
      Empty(u.operators);
      Empty(s.output);
      CloseCall(functions, name, args, s, s.output, [], rest);
    } else {
      Empty(u.operators);
      Empty(s.output);
      ParseArgs(functions, args, s, name, 1, s.output, [], close);
      var last := args[|args| - 1];
      TabledLast(functions, args);
      PendingBinds(functions, last);
      ArgsEmittedPending(functions, args);
      Assoc(s.output, ArgsEmitted(functions, args), Reverse(Pending(functions, last)));
      CloseCall(functions, name, args, s, s.output + ArgsEmitted(functions, args), Pending(functions, last), rest);
    }
  }

  /** Between the parentheses of a call that has counted so many arguments. */
  function Entered(s: State, name: string, args: nat): State {
    s.(operators := s.operators + ([Invoke(name, args, None)] + [Open]), level := s.level + 1,
       calls := s.calls + [OpenCall(|s.operators|, s.level)])
  }

  /** The output of a run of arguments: all of each, except that the last one still waits. */
  function ArgsEmitted(functions: Functions, args: seq<Expr>): seq<Node> {
    if args == [] then []
    else if |args| == 1 then Emitted(functions, args[0])
    else Postfix(functions, args[0]) + ArgsEmitted(functions, args[1..])
  }

  lemma {:induction false} ArgsEmittedPending(functions: Functions, args: seq<Expr>)
    requires args != []
    ensures ArgsEmitted(functions, args) + Reverse(Pending(functions, args[|args| - 1])) == ArgsPostfix(functions, args)
  {
    if |args| == 1 {
      EmittedPending(functions, args[0]);
      assert ArgsPostfix(functions, args[1..]) == [];
    } else {
      ArgsEmittedPending(functions, args[1..]);
    }
  }

  lemma {:induction false} ArgsNeverStartClosed(args: seq<Expr>)
    requires args != []
    ensures !ArgTokens(args)[0].RightParen?
  {
    NeverStartsClosed(args[0]);
  }

  /** The parser has read the name of a call. */
  function Named(s: State, name: string): State {
    s.(operators := s.operators + [Invoke(name, 1, None)], calls := s.calls + [OpenCall(|s.operators|, s.level)])
  }

  /** The left parenthesis of a call; the count drops to 0 when the next token closes it. */
  lemma OpenStep(functions: Functions, s: State, name: string, peek: Option<Token>)
    ensures Step(functions, Named(s, name), LeftParen, peek) ==
            Ok(Entered(s, name, if peek == Some(RightParen) then 0 else 1))
  {
    var i, node := |s.operators|, Invoke(name, 1, None);
    Assoc(s.operators, [node], [Open]);
    SetAt(s.operators, node, [Open], Invoke(name, 0, None));
    Snoc(s.calls, OpenCall(i, s.level));
  }

  lemma OpenCallAt(functions: Functions, name: string, args: seq<Expr>, s: State, rest: seq<Token>)
    requires !Reserved(name)
    ensures Run(functions, s, Tokens(Call(name, args)) + rest) ==
            Run(functions, Entered(s, name, if args == [] then 0 else 1), ArgTokens(args) + ([RightParen] + rest))
  {
    var inside := ArgTokens(args) + ([RightParen] + rest);
    Assoc4([Id(name), LeftParen], ArgTokens(args), [RightParen], rest);
    assert Tokens(Call(name, args)) + rest == [Id(name)] + ([LeftParen] + inside);
    RunCons(functions, s, Id(name), [LeftParen] + inside);
    if args != [] {
      ArgsNeverStartClosed(args);
      FirstOf(ArgTokens(args), [RightParen] + rest);
    }
    OpenStep(functions, s, name, First(inside));
    RunCons(functions, Named(s, name), LeftParen, inside);
  }

  /** The same with operators that wait above the parenthesis. */
  function Held(s: State, name: string, count: nat, output: seq<Node>, waiting: seq<Node>): State {
    var u := Entered(s, name, count);
    u.(output := output, operators := u.operators + waiting)
  }

  /** A comma counts, and leaves what waits where it is. */
  lemma ReadComma(functions: Functions, name: string, count: nat, s: State, output: seq<Node>, waiting: seq<Node>,
                  rest: seq<Token>)
    ensures Run(functions, Held(s, name, count, output, waiting), [Comma] + rest) ==
            Run(functions, Held(s, name, count + 1, output, waiting), rest)
  {
    Assoc(s.operators, [Invoke(name, count, None)] + [Open], waiting);
    Assoc([Invoke(name, count, None)], [Open], waiting);
    Assoc(s.operators, [Invoke(name, count + 1, None)] + [Open], waiting);
    Assoc([Invoke(name, count + 1, None)], [Open], waiting);
    SetAt(s.operators, Invoke(name, count, None), [Open] + waiting, Invoke(name, count + 1, None));
    Snoc(s.calls, OpenCall(|s.operators|, s.level));
    RunCons(functions, Held(s, name, count, output, waiting), Comma, rest);
  }

  lemma {:induction false} NotFirst(e: Expr)
    requires LeadsNot(e) && WordsApart(e)
    ensures |Tokens(e)| > 1 && Tokens(e)[0] == OpToken(Not) && !Tokens(e)[1].LeftParen?
  {
    match e
    case Unary(x) =>
    case Binary(op, l, r) => NotFirst(l);
  }

  /** What waits at a comma does no harm: nothing does, or the next argument begins with not, which pops it all. */
  predicate Flushed(waiting: seq<Node>, e: Expr) {
    waiting == [] || (LeadsNot(e) && forall n :: n in waiting ==> Pops(n, Not))
  }

  lemma ApartIsFlushed(functions: Functions, a: Expr, b: Expr)
    requires Tabled(functions, a) && Apart(a, b)
    ensures Flushed(Pending(functions, a), b)
  {
    if !Closed(a) {
      LeftPops(functions, a, Not);
    }
  }

  lemma NotFlushesFirst(functions: Functions, s: State, base: seq<Node>, waiting: seq<Node>, more: seq<Token>)
    requires s.operators == base + waiting && base != [] && Top(base).Open?
    requires (forall n :: n in waiting ==> Pops(n, Not)) && Continues(more)
    ensures Run(functions, s, [OpToken(Not)] + more) ==
            Run(functions, s.(output := s.output + Reverse(waiting), operators := base), [OpToken(Not)] + more)
  {
    hide Run, Reverse;
    var t := s.(output := s.output + Reverse(waiting), operators := base);
    PopForAll(s, base, waiting, Not);
    assert PopFor(t, Not) == t;
    RunCons(functions, s, OpToken(Not), more);
    RunCons(functions, t, OpToken(Not), more);
  }

  lemma NotFlushes(functions: Functions, e: Expr, s: State, base: seq<Node>, waiting: seq<Node>, rest: seq<Token>)
    requires WordsApart(e) && Flushed(waiting, e) && s.operators == base + waiting
    requires base != [] && Top(base).Open?
    ensures Run(functions, s, Tokens(e) + rest) ==
            Run(functions, s.(output := s.output + Reverse(waiting), operators := base), Tokens(e) + rest)
  {
    hide Run, Pops, Reverse;
    if waiting == [] {
      Empty(base);
      Empty(s.output);
    } else {
      NotFirst(e);
      NotFlushesFirst(functions, s, base, waiting, Tokens(e)[1..] + rest);
      assert Tokens(e) + rest == [OpToken(Not)] + (Tokens(e)[1..] + rest);
    }
  }

  /** One argument, over what waits of the one before. */
  lemma ParseOver(functions: Functions, arg: Expr, s: State, name: string, count: nat, output: seq<Node>,
                  waiting: seq<Node>,
                  rest: seq<Token>)
    requires WordsApart(arg) && Flushed(waiting, arg)
    requires var u := Held(s, name, count, output + Reverse(waiting), []);
             Run(functions, u, Tokens(arg) + rest) == Run(functions, After(functions, u, arg), rest)
    ensures Run(functions, Held(s, name, count, output, waiting), Tokens(arg) + rest) ==
            Run(functions, Held(s, name, count, output + Reverse(waiting) + Emitted(functions, arg),
                                Pending(functions, arg)), rest)
  {
    var u := Entered(s, name, count);
    NotFlushes(functions, arg, Held(s, name, count, output, waiting), u.operators, waiting, rest);
    Empty(u.operators);
  }

  lemma ParseNext(functions: Functions, arg: Expr, s: State, name: string, count: nat, output: seq<Node>,
                  waiting: seq<Node>,
                  tail: seq<Token>)
    requires WordsApart(arg) && Flushed(waiting, arg)
    requires var u := Held(s, name, count, output + Reverse(waiting), []);
             Run(functions, u, Tokens(arg) + ([Comma] + tail)) ==
               Run(functions, After(functions, u, arg), [Comma] + tail)
    ensures Run(functions, Held(s, name, count, output, waiting), Tokens(arg) + ([Comma] + tail)) ==
            Run(functions, Held(s, name, count + 1, output + Reverse(waiting) + Emitted(functions, arg),
                                Pending(functions, arg)), tail)
  {
    hide Run, After, Held, Flushed, WordsApart;
    ParseOver(functions, arg, s, name, count, output, waiting, [Comma] + tail);
    ReadComma(functions, name, count, s, output + Reverse(waiting) + Emitted(functions, arg), Pending(functions, arg),
              tail);
  }

  /** The arguments from some point on; the count, the output and what waits so far are given. */
  lemma {:induction false} ParseArgs(functions: Functions, args: seq<Expr>, s: State, name: string, count: nat,
                                     output: seq<Node>, waiting: seq<Node>, close: seq<Token>)
    requires args != [] && SoundArgs(functions, args) && WordsApartArgs(args) && Continues(close)
    requires Flushed(waiting, args[0])
    ensures var last := args[|args| - 1];
            Run(functions, Held(s, name, count, output, waiting), ArgTokens(args) + close) ==
            Run(functions, Held(s, name, count + |args| - 1, output + Reverse(waiting) + ArgsEmitted(functions, args),
                                Pending(functions, last)), close)
    decreases args, 1
  {
    hide Run, Step, Held, After, Emitted, Pending, Reverse, Flushed, Apart, Postfix;
    var arg, out := args[0], output + Reverse(waiting);
    HeldState(s, name, count, out, []);
    if |args| == 1 {
      ParseExpr(functions, arg, Held(s, name, count, out, []), close);
      ParseOver(functions, arg, s, name, count, output, waiting, close);
    } else {
      var tail := ArgTokens(args[1..]) + close;
      ParseExpr(functions, arg, Held(s, name, count, out, []), [Comma] + tail);
      ParseNext(functions, arg, s, name, count, output, waiting, tail);
      ApartIsFlushed(functions, arg, args[1]);
      ParseArgs(functions, args[1..], s, name, count + 1, out + Emitted(functions, arg), Pending(functions, arg),
                close);
      MoreArgs(functions, args, out, close);
    }
  }

  lemma MoreArgs(functions: Functions, args: seq<Expr>, output: seq<Node>, close: seq<Token>)
    requires |args| > 1
    ensures ArgTokens(args) + close == Tokens(args[0]) + ([Comma] + (ArgTokens(args[1..]) + close))
    ensures var first := output + Emitted(functions, args[0]) + Reverse(Pending(functions, args[0]));
            first + ArgsEmitted(functions, args[1..]) == output + ArgsEmitted(functions, args)
  {
    Assoc4(Tokens(args[0]), [Comma], ArgTokens(args[1..]), close);
    EmittedPending(functions, args[0]);
    Assoc(output, Emitted(functions, args[0]), Reverse(Pending(functions, args[0])));
    Assoc(output, Postfix(functions, args[0]), ArgsEmitted(functions, args[1..]));
  }

  lemma HeldState(s: State, name: string, count: nat, output: seq<Node>, waiting: seq<Node>)
    ensures var u := Held(s, name, count, output, waiting);
            Inside(u) && u.operators != []
              && (waiting == [] ==> Top(u.operators).Open? && forall e :: Settled(u.operators, e))
  {
  }

  lemma {:induction false} TabledLast(functions: Functions, args: seq<Expr>)
    requires args != [] && TabledArgs(functions, args)
    ensures Tabled(functions, args[|args| - 1])
  {
    if |args| > 1 {
      TabledLast(functions, args[1..]);
    }
  }

  /** The closing parenthesis of a call pops what waits above its opening one, and finds the function. */
  lemma CloseHeld(functions: Functions, s: State, name: string, count: nat, output: seq<Node>, waiting: seq<Node>,
                  rest: seq<Token>)
    requires FindFunction(functions, name, count).Some? && forall n :: n in waiting ==> !n.Open?
    ensures var called := Invoke(name, count, FindFunction(functions, name, count));
            Run(functions, Held(s, name, count, output, waiting), [RightParen] + rest) ==
            Run(functions, s.(output := output + Reverse(waiting), operators := s.operators + [called]), rest)
  {
    var u, node := Held(s, name, count, output, waiting), Invoke(name, count, None);
    var called := Invoke(name, count, FindFunction(functions, name, count));
    PopToOpenAll(u, Entered(s, name, count).operators, waiting);
    SnocAppend(s.operators, [node], Open);
    SetAt(s.operators, node, [], called);
    Empty([node]);
    Empty([called]);
    Snoc(s.calls, OpenCall(|s.operators|, s.level));
    assert Step(functions, u, RightParen, First(rest)) ==
           Ok(s.(output := output + Reverse(waiting), operators := s.operators + [called]));
    RunCons(functions, u, RightParen, rest);
  }

  lemma CloseCall(functions: Functions, name: string, args: seq<Expr>, s: State, output: seq<Node>, waiting: seq<Node>,
                  rest: seq<Token>)
    requires FindFunction(functions, name, |args|).Some? && forall n :: n in waiting ==> !n.Open?
    requires output + Reverse(waiting) == s.output + ArgsPostfix(functions, args)
    ensures Run(functions, Held(s, name, |args|, output, waiting), [RightParen] + rest) ==
            Run(functions, After(functions, s, Call(name, args)), rest)
  {
    CloseHeld(functions, s, name, |args|, output, waiting, rest);
  }

  /** Every expression that is parenthesised as the table asks, whose arguments stand apart, and that has no
      word operator in front of a parenthesis, is parsed to its postfix order. */
  lemma ParserIsPostfix(functions: Functions, e: Expr)
    requires Sound(functions, e) && WordsApart(e)
    ensures Parse(functions, Tokens(e)) == Ok(Postfix(functions, e))
  {
    var s := Start();
    ParseExpr(functions, e, s, []);
    Empty(Tokens(e));
    var t := After(functions, s, e);
    PopAllOutput(t);
    Empty(Emitted(functions, e));
    Empty(Pending(functions, e));
    EmittedPending(functions, e);
  }
}
