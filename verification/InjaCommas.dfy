/** Commas in template expressions: which arguments are read as they were written, and what becomes of the rest. */
module InjaCommas {
  import opened InjaSyntax
  import opened InjaParser
  import opened InjaParserProofs
  import opened InjaParserLimits
  import opened Seqs
  import opened Wrappers

  // ----- The output only grows

  lemma {:induction false} PopForGrows(s: State, op: Op)
    ensures s.output <= PopFor(s, op).output
    decreases |s.operators|
  {
    if s.operators != [] && Pops(Top(s.operators), op) {
      PopForGrows(s.(output := s.output + [Top(s.operators)], operators := Pop(s.operators)), op);
    }
  }

  lemma {:induction false} PopToOpenGrows(s: State)
    ensures s.output <= PopToOpen(s).output
    decreases |s.operators|
  {
    if s.operators != [] && !Top(s.operators).Open? {
      PopToOpenGrows(s.(output := s.output + [Top(s.operators)], operators := Pop(s.operators)));
    }
  }

  lemma StepGrows(functions: Functions, s: State, token: Token, peek: Option<Token>)
    requires Step(functions, s, token, peek).Ok?
    ensures s.output <= Step(functions, s, token, peek).value.output
  {
    match token
    case Id(text) =>
      if OpOfWord(text).Some? {
        PopForGrows(s, OpOfWord(text).value);
      }
    case Symbol(op) => PopForGrows(s, op);
    case RightParen => PopToOpenGrows(s);
    case _ =>
  }

  lemma {:induction false} RunGrows(functions: Functions, s: State, tokens: seq<Token>)
    requires Run(functions, s, tokens).Ok?
    ensures s.output <= Run(functions, s, tokens).value.output
    decreases |tokens|
  {
    if tokens != [] {
      StepGrows(functions, s, tokens[0], Peek(tokens));
      RunGrows(functions, Step(functions, s, tokens[0], Peek(tokens)).value, tokens[1..]);
    }
  }

  /** The parser does not end with this list of nodes. */
  predicate Misses(functions: Functions, s: State, tokens: seq<Token>, target: seq<Node>) {
    var r := Run(functions, s, tokens);
    r.Err? || PopAll(r.value).output != target
  }

  /** One wrong node in the output cannot be made good. */
  lemma OffTarget(functions: Functions, s: State, tokens: seq<Token>, target: seq<Node>)
    requires !(s.output <= target)
    ensures Misses(functions, s, tokens, target)
  {
    var r := Run(functions, s, tokens);
    if r.Ok? {
      RunGrows(functions, s, tokens);
      PopAllOutput(r.value);
    }
  }

  // ----- The first node that an expression puts out

  predicate Leaf(n: Node) { n.Value? || n.Lookup? }

  /** A value comes out where the target has an operator or a call. */
  predicate LeafIsWrong(output: seq<Node>, target: seq<Node>) { |output| < |target| && !Leaf(target[|output|]) }

  lemma LeafMisses(functions: Functions, e: Expr, s: State, rest: seq<Token>, target: seq<Node>)
    requires (e.Literal? || e.Variable?) && Tabled(functions, e) && Continues(rest) && LeafIsWrong(s.output, target)
    ensures Misses(functions, s, Tokens(e) + rest, target)
  {
    hide Run, Step, PopAll;
    var t := LeafRead(functions, e, s, rest);
    assert t.output[|s.output|] == Postfix(functions, e)[0];
    OffTarget(functions, t, rest, target);
  }

  lemma LeafRead(functions: Functions, e: Expr, s: State, rest: seq<Token>) returns (t: State)
    requires (e.Literal? || e.Variable?) && Tabled(functions, e) && Continues(rest)
    ensures Run(functions, s, Tokens(e) + rest) == Run(functions, t, rest)
    ensures t == s.(output := s.output + Postfix(functions, e))
  {
    t := s.(output := s.output + Postfix(functions, e));
    var token := if e.Variable? then Id(e.name) else if Reserved(e.text) then Id(e.text) else Lit(e.text);
    RunCons(functions, s, token, rest);
  }

  /** The operand of not does not begin with another one. */
  lemma NotOnce(functions: Functions, x: Expr)
    requires Tabled(functions, Unary(x))
    ensures !LeadsNot(x)
  {
  }

  /** The arguments begin with the first one. */
  lemma FirstArg(args: seq<Expr>, close: seq<Token>) returns (rest: seq<Token>)
    requires args != [] && Continues(close)
    ensures ArgTokens(args) + close == Tokens(args[0]) + rest && Continues(rest)
  {
    if |args| == 1 {
      rest := close;
    } else {
      rest := [Comma] + (ArgTokens(args[1..]) + close);
      Assoc4(Tokens(args[0]), [Comma], ArgTokens(args[1..]), close);
    }
  }

  /** The first thing an expression puts out is a value, after what a leading not puts out. */
  lemma {:induction false} FirstOut(functions: Functions, e: Expr, s: State, rest: seq<Token>, target: seq<Node>)
    requires Tabled(functions, e) && StartsPlain(e) && WordsApart(e) && Continues(rest)
    requires LeafIsWrong(if LeadsNot(e) then PopFor(s, Not).output else s.output, target)
    ensures Misses(functions, s, Tokens(e) + rest, target)
    decreases e
  {
    hide Run, Step, LeafIsWrong, PopAll;
    match e
    case Literal(_) => LeafMisses(functions, e, s, rest, target);
    case Variable(_) => LeafMisses(functions, e, s, rest, target);
    case Paren(inner) =>
      OpenParen(functions, inner, s, rest);
      FirstOut(functions, inner, s.(operators := s.operators + [Open], level := s.level + 1), [RightParen] + rest,
               target);
    case Unary(x) =>
      NotRead(functions, x, s, rest);
      NotOnce(functions, x);
      FirstOut(functions, x, ReadOperator(s, Not), rest, target);
    case Binary(op, l, r) =>
      Assoc4(Tokens(l), [OpToken(op)], Tokens(r), rest);
      FirstOut(functions, l, s, [OpToken(op)] + (Tokens(r) + rest), target);
    case Call(name, args) =>
      OpenCallAt(functions, name, args, s, rest);
      var more := FirstArg(args, [RightParen] + rest);
      FirstOut(functions, args[0], Entered(s, name, 1), more, target);
  }

  lemma NotRead(functions: Functions, x: Expr, s: State, rest: seq<Token>)
    requires !StartsOpen(x)
    ensures Run(functions, s, Tokens(Unary(x)) + rest) == Run(functions, ReadOperator(s, Not), Tokens(x) + rest)
  {
    Assoc([OpToken(Not)], Tokens(x), rest);
    FirstOf(Tokens(x), rest);
    RunCons(functions, s, OpToken(Not), Tokens(x) + rest);
  }

  // ----- An argument over what waits of the one before

  lemma {:induction false} PendingNodes(functions: Functions, e: Expr)
    ensures forall n <- Pending(functions, e) :: !Leaf(n) && !n.Open?
  {
    match e
    case Unary(x) => PendingNodes(functions, x);
    case Binary(op, l, r) => PendingNodes(functions, r);
    case _ =>
  }

  /** An operator pops from the top, down to the first node that it does not pop. */
  lemma {:induction false} PopForSplit(s: State, base: seq<Node>, waiting: seq<Node>, op: Op) returns (kept: nat)
    requires s.operators == base + waiting && base != [] && Top(base).Open?
    ensures kept <= |waiting| && PopFor(s, op).output == s.output + Reverse(waiting[kept..])
    ensures forall n <- waiting[kept..] :: Pops(n, op)
    decreases |waiting|
  {
    Empty(base);
    Empty(s.output);
    kept := |waiting|;
    if waiting != [] && Pops(Top(waiting), op) {
      hide Reverse, Pops;
      var n, lower := Top(waiting), Pop(waiting);
      LastOf(waiting);
      SnocAppend(base, lower, n);
      kept := PopForSplit(s.(output := s.output + [n], operators := Pop(s.operators)), base, lower, op);
      DropSnoc(lower, n, kept);
      ReverseLast(lower[kept..], n);
      Assoc(s.output, [n], Reverse(lower[kept..]));
    }
  }

  lemma {:induction false} ReverseAt<T>(s: seq<T>, k: nat)
    requires k < |s|
    ensures Reverse(s)[k] == s[|s| - 1 - k]
  {
    if k < |s| - 1 {
      ReverseAt(s[1..], k);
    }
  }

  /** What waits at the comma and is not flushed comes too late. */
  lemma ArgMisread(functions: Functions, a: Expr, b: Expr, s: State, name: string, count: nat, output: seq<Node>,
                   rest: seq<Token>, target: seq<Node>)
    requires Tabled(functions, a) && Tabled(functions, b) && !Apart(a, b) && StartsPlain(b) && WordsApart(b)
    requires Continues(rest)
    requires output + Reverse(Pending(functions, a)) <= target
    ensures Misses(functions, Held(s, name, count, output, Pending(functions, a)), Tokens(b) + rest, target)
  {
    hide Run, Step, Misses;
    var waiting := Pending(functions, a);
    var u := Held(s, name, count, output, waiting);
    PendingNodes(functions, a);
    var kept := |waiting|;
    if LeadsNot(b) {
      kept := PopForSplit(u, Entered(s, name, count).operators, waiting, Not);
      assert waiting[0] == Apply(RootOp(a).value);
      assert waiting[0] in waiting[0..] && waiting[0] !in waiting[kept..];
    }
    var k := |waiting| - kept;
    ReverseAt(waiting, k);
    assert target[|output| + k] == (output + Reverse(waiting))[|output| + k];
    FirstOut(functions, b, u, rest, target);
  }

  // ----- If commas are not apart, the tree is lost

  lemma Prefix<T>(a: seq<T>, b: seq<T>, c: seq<T>, target: seq<T>)
    requires a + (b + c) <= target
    ensures a + b <= target
  {
    Assoc(a, b, c);
  }

  lemma {:induction false} Breaks(functions: Functions, e: Expr, s: State, rest: seq<Token>, target: seq<Node>)
    requires Tabled(functions, e) && PlainCalls(e) && WordsApart(e) && !CommasApart(e)
    requires Settled(s.operators, e) && Inside(s) && Continues(rest) && s.output + Postfix(functions, e) <= target
    ensures Misses(functions, s, Tokens(e) + rest, target)
    decreases e, 1
  {
    hide Run, Step, Misses;
    match e
    case Paren(inner) =>
      OpenParen(functions, inner, s, rest);
      Breaks(functions, inner, s.(operators := s.operators + [Open], level := s.level + 1), [RightParen] + rest,
             target);
      SameRun(functions, s, Tokens(e) + rest, s.(operators := s.operators + [Open], level := s.level + 1),
              Tokens(inner) + ([RightParen] + rest), target);
    case Unary(x) =>
      var u := s.(operators := s.operators + [Apply(Not)]);
      ReadNot(functions, x, s, rest);
      Prefix(s.output, Postfix(functions, x), [Apply(Not)], target);
      Breaks(functions, x, u, rest, target);
      SameRun(functions, s, Tokens(e) + rest, u, Tokens(x) + rest, target);
    case Binary(_, _, _) => BinaryBreaks(functions, e, s, rest, target);
    case Call(name, args) =>
      var u := Entered(s, name, 1);
      OpenCallAt(functions, name, args, s, rest);
      Empty(u.operators);
      Empty(s.output);
      Prefix(s.output, ArgsPostfix(functions, args), [Invoke(name, |args|, FindFunction(functions, name, |args|))],
             target);
      ArgsBreak(functions, args, s, name, 1, s.output, [], [RightParen] + rest, target);
      SameRun(functions, s, Tokens(e) + rest, u, ArgTokens(args) + ([RightParen] + rest), target);
  }

  lemma SameRun(functions: Functions, s: State, tokens: seq<Token>, t: State, more: seq<Token>, target: seq<Node>)
    requires Run(functions, s, tokens) == Run(functions, t, more) && Misses(functions, t, more, target)
    ensures Misses(functions, s, tokens, target)
  {
  }

  lemma {:induction false} BinaryBreaks(functions: Functions, e: Expr, s: State, rest: seq<Token>, target: seq<Node>)
    requires e.Binary? && Tabled(functions, e) && PlainCalls(e) && WordsApart(e) && !CommasApart(e)
    requires Settled(s.operators, e) && Inside(s) && Continues(rest) && s.output + Postfix(functions, e) <= target
    ensures Misses(functions, s, Tokens(e) + rest, target)
    decreases e, 0
  {
    hide Run, Step, Misses;
    var op, l, r := e.op, e.left, e.right;
    var tail := Tokens(r) + rest;
    SettledLeft(s.operators, op, l);
    Assoc4(Tokens(l), [OpToken(op)], Tokens(r), rest);
    Assoc(Postfix(functions, l), Postfix(functions, r), [Apply(op)]);
    if !CommasApart(l) {
      Prefix(s.output, Postfix(functions, l), Postfix(functions, r) + [Apply(op)], target);
      Breaks(functions, l, s, [OpToken(op)] + tail, target);
    } else {
      ParseExpr(functions, l, s, [OpToken(op)] + tail);
      FirstOf(Tokens(r), rest);
      ReadBinary(functions, op, l, s, tail);
      Assoc(s.output, Postfix(functions, l), Postfix(functions, r) + [Apply(op)]);
      Prefix(s.output + Postfix(functions, l), Postfix(functions, r), [Apply(op)], target);
      Breaks(functions, r, AfterLeft(functions, s, op, l), rest, target);
      SameRun(functions, s, Tokens(e) + rest, AfterLeft(functions, s, op, l), tail, target);
    }
  }

  lemma {:induction false} ArgsBreak(functions: Functions, args: seq<Expr>, s: State, name: string, count: nat,
                                     output: seq<Node>, waiting: seq<Node>, close: seq<Token>, target: seq<Node>)
    requires args != [] && TabledArgs(functions, args) && PlainArgs(args) && WordsApartArgs(args)
    requires !CommasApartArgs(args)
    requires Continues(close) && Flushed(waiting, args[0])
    requires output + Reverse(waiting) + ArgsPostfix(functions, args) <= target
    ensures Misses(functions, Held(s, name, count, output, waiting), ArgTokens(args) + close, target)
    decreases args, 0
  {
    hide Run, Step, Misses;
    var arg, u, out := args[0], Held(s, name, count, output, waiting), output + Reverse(waiting);
    var rest := FirstArg(args, close);
    var v := Held(s, name, count, out, []);
    HeldState(s, name, count, out, []);
    if !CommasApart(arg) {
      Prefix(out, Postfix(functions, arg), ArgsPostfix(functions, args[1..]), target);
      Empty(Entered(s, name, count).operators);
      NotFlushes(functions, arg, u, Entered(s, name, count).operators, waiting, rest);
      Breaks(functions, arg, v, rest, target);
      SameRun(functions, u, ArgTokens(args) + close, v, Tokens(arg) + rest, target);
    } else {
      var tail := ArgTokens(args[1..]) + close;
      assert CommasApartArgs([]) && |args| > 1;
      MoreArgs(functions, args, out, close);
      ParseExpr(functions, arg, v, [Comma] + tail);
      ParseOver(functions, arg, s, name, count, output, waiting, [Comma] + tail);
      var held, pending := out + Emitted(functions, arg), Pending(functions, arg);
      var w := Held(s, name, count + 1, held, pending);
      ReadComma(functions, name, count, s, held, pending, tail);
      Assoc(out, Emitted(functions, arg), Reverse(pending));
      EmittedPending(functions, arg);
      Assoc(out, Postfix(functions, arg), ArgsPostfix(functions, args[1..]));
      if Apart(arg, args[1]) {
        ApartIsFlushed(functions, arg, args[1]);
        ArgsBreak(functions, args[1..], s, name, count + 1, held, pending, close, target);
      } else {
        var more := FirstArg(args[1..], close);
        ArgMisread(functions, arg, args[1], s, name, count + 1, held, more, target);
      }
      SameRun(functions, u, ArgTokens(args) + close, w, tail, target);
    }
  }

  /** An expression that is parenthesised as the table asks is read as its tree if and only if no word operator
      stands before a parenthesis and every argument that is followed by another stands apart from it. The
      calls without arguments that are excluded put out nothing by which a wrong order would show. */
  lemma ParsesExactly(functions: Functions, e: Expr)
    requires Tabled(functions, e) && WordsFree(functions) && PlainCalls(e)
    ensures Parse(functions, Tokens(e)) == Ok(Postfix(functions, e)) <==> WordsApart(e) && CommasApart(e)
  {
    FailsExactly(functions, e);
    if WordsApart(e) {
      if CommasApart(e) {
        ParserIsPostfix(functions, e);
      } else {
        Empty(Tokens(e));
        Empty(Postfix(functions, e));
        Breaks(functions, e, Start(), [], Postfix(functions, e));
      }
    }
  }

  // ----- How the other calls are read

  /** All that waits of the first argument comes out after the second. */
  lemma CommaReading(functions: Functions, name: string, a: Expr, c: Expr)
    requires FindFunction(functions, name, 2).Some? && !Reserved(name) && Closed(c)
    requires Sound(functions, a) && WordsApart(a) && Sound(functions, c) && WordsApart(c)
    ensures Parse(functions, Tokens(Call(name, [a, c]))) ==
            Ok(Emitted(functions, a) + Postfix(functions, c) + Reverse(Pending(functions, a)) +
               [Invoke(name, 2, FindFunction(functions, name, 2))])
  {
    hide Run, Step;
    var s, tail, pending := Start(), Tokens(c) + [RightParen], Pending(functions, a);
    var called := Invoke(name, 2, FindFunction(functions, name, 2));
    var output := Emitted(functions, a) + Postfix(functions, c);
    CallTokens(name, a, c);
    OpenCallAt(functions, name, [a, c], s, []);
    Empty(Entered(s, name, 1).operators);
    HeldState(s, name, 1, [], []);
    Empty(Emitted(functions, a));
    ParseExpr(functions, a, Held(s, name, 1, [], []), [Comma] + tail);
    ReadComma(functions, name, 1, s, Emitted(functions, a), pending, tail);
    HeldState(s, name, 2, Emitted(functions, a), pending);
    ParseExpr(functions, c, Held(s, name, 2, Emitted(functions, a), pending), [RightParen]);
    Empty(Held(s, name, 2, output, pending).operators);
    PendingNodes(functions, a);
    Empty([RightParen]);
    CloseHeld(functions, s, name, 2, output, pending, []);
    LastCall(functions, output + Reverse(pending), called);
  }

  lemma CallTokens(name: string, a: Expr, c: Expr)
    ensures Tokens(Call(name, [a, c])) + [] == Tokens(Call(name, [a, c]))
    ensures ArgTokens([a, c]) + ([RightParen] + []) == Tokens(a) + ([Comma] + (Tokens(c) + [RightParen]))
  {
    Empty(Tokens(Call(name, [a, c])));
    Empty([RightParen]);
    assert [a, c][1..] == [c];
    assert ArgTokens([c]) == Tokens(c);
    Assoc4(Tokens(a), [Comma], Tokens(c), [RightParen]);
  }

  lemma LastCall(functions: Functions, output: seq<Node>, called: Node)
    ensures var t := Start().(output := output, operators := [] + [called]);
            Run(functions, t, []) == Ok(t) && PopAll(t).output == output + [called]
  {
    var t := Start().(output := output, operators := [called]);
    Empty([called]);
    PopAllOutput(t);
  }

  lemma PairPostfix(functions: Functions, x: Expr, y: Expr)
    ensures ArgsPostfix(functions, [x, y]) == Postfix(functions, x) + Postfix(functions, y)
  {
    assert [x, y][1..] == [y] && [y][1..] == [];
    Empty(Postfix(functions, y));
    assert ArgsPostfix(functions, [y]) == Postfix(functions, y) + ArgsPostfix(functions, []);
  }

  /** f(a op b, c) is read as f(a, b op c). */
  lemma CommaDoesNotPop(functions: Functions, name: string, op: Op, a: Expr, b: Expr, c: Expr)
    requires FindFunction(functions, name, 2).Some? && !Reserved(name) && Closed(b) && Closed(c)
    requires Sound(functions, Binary(op, a, b)) && WordsApart(Binary(op, a, b)) && Sound(functions, c) && WordsApart(c)
    ensures Parse(functions, Tokens(Call(name, [Binary(op, a, b), c]))) ==
            Ok(Postfix(functions, Call(name, [a, Binary(op, b, c)])))
  {
    hide Parse, Tokens;
    var first, last := Binary(op, a, b), Binary(op, b, c);
    CommaReading(functions, name, first, c);
    Empty([Apply(op)]);
    assert Emitted(functions, first) == Postfix(functions, a) + Postfix(functions, b);
    assert Reverse(Pending(functions, first)) == [Apply(op)];
    PairPostfix(functions, a, last);
    Assoc4(Postfix(functions, a), Postfix(functions, b), Postfix(functions, c), [Apply(op)]);
    Assoc(Postfix(functions, b), Postfix(functions, c), [Apply(op)]);
  }

  lemma {:induction false} ArgsPostfixSnoc(functions: Functions, args: seq<Expr>, c: Expr)
    ensures ArgsPostfix(functions, args + [c]) == ArgsPostfix(functions, args) + Postfix(functions, c)
  {
    if args == [] {
      assert [c][1..] == [] && args + [c] == [c];
      Empty(Postfix(functions, c));
    } else {
      assert (args + [c])[1..] == args[1..] + [c];
      ArgsPostfixSnoc(functions, args[1..], c);
      Assoc(Postfix(functions, args[0]), ArgsPostfix(functions, args[1..]), Postfix(functions, c));
    }
  }

  /** f(g(x, y), c) is read as f(x, g(y, c)), whatever the number of arguments of g: f(g(x), c) as f(x, g(c)). */
  lemma NestedCallMoves(functions: Functions, name: string, inner: string, args: seq<Expr>, c: Expr)
    requires FindFunction(functions, name, 2).Some? && !Reserved(name) && Closed(c) && args != []
    requires Sound(functions, Call(inner, args)) && WordsApart(Call(inner, args)) && Sound(functions, c)
    requires WordsApart(c)
    ensures Parse(functions, Tokens(Call(name, [Call(inner, args), c]))) ==
            Ok(Postfix(functions, Call(name, [args[0], Call(inner, args[1..] + [c])])))
  {
    hide Parse, Tokens;
    var moved := Call(inner, args[1..] + [c]);
    var node := Invoke(inner, |args|, FindFunction(functions, inner, |args|));
    CommaReading(functions, name, Call(inner, args), c);
    assert Reverse([node]) == [node];
    PairPostfix(functions, args[0], moved);
    ArgsPostfixSnoc(functions, args[1..], c);
    Assoc(Postfix(functions, args[0]), ArgsPostfix(functions, args[1..]), Postfix(functions, c));
    Assoc(Postfix(functions, args[0]), ArgsPostfix(functions, args[1..]) + Postfix(functions, c), [node]);
  }

  /** f(h(), c) is read as f(c, h()). */
  lemma EmptyCallMoves(functions: Functions, name: string, inner: string, c: Expr)
    requires FindFunction(functions, name, 2).Some? && !Reserved(name) && Closed(c)
    requires Sound(functions, Call(inner, [])) && Sound(functions, c) && WordsApart(c)
    ensures Parse(functions, Tokens(Call(name, [Call(inner, []), c]))) ==
              Ok(Postfix(functions, Call(name, [c, Call(inner, [])])))
  {
    hide Parse, Tokens;
    var node := Invoke(inner, 0, FindFunction(functions, inner, 0));
    CommaReading(functions, name, Call(inner, []), c);
    assert Reverse([node]) == [node];
    PairPostfix(functions, c, Call(inner, []));
    Empty([node]);
    Empty(Postfix(functions, c));
  }

  /** So f(h(), (h())) comes out right although its arguments are not apart. */
  lemma SameCallsAgree(functions: Functions, name: string, inner: string)
    requires FindFunction(functions, name, 2).Some? && !Reserved(name) && Sound(functions, Call(inner, []))
    ensures var e := Call(name, [Call(inner, []), Paren(Call(inner, []))]);
            Tabled(functions, e) && !CommasApart(e) && !PlainCalls(e)
              && Parse(functions, Tokens(e)) == Ok(Postfix(functions, e))
  {
    hide Parse, Tokens;
    var h := Call(inner, []);
    var args := [h, Paren(h)];
    assert WordsApart(h) && CommasApart(h) && !StartsPlain(h);
    EmptyCallMoves(functions, name, inner, Paren(h));
    PairPostfix(functions, h, Paren(h));
    PairPostfix(functions, Paren(h), h);
    assert args[1..] == [Paren(h)] && args[1..][1..] == [];
    assert TabledArgs(functions, args[1..]) && !StartsPlain(args[1]);
    assert !PlainArgs(args) && !CommasApartArgs(args);
  }
}
