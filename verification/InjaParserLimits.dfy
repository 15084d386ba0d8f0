/** Where the expression parser reports an error: word operators before a parenthesis. */
module InjaParserLimits {
  import opened InjaSyntax
  import opened InjaParser
  import opened InjaParserProofs
  import opened Seqs
  import opened Wrappers

  /** No function is registered under the name of a word operator with one argument. */
  predicate WordsFree(functions: Functions) {
    forall op :: Word(op).Some? ==> FindFunction(functions, Word(op).value, 1).None?
  }

  /** What begins with a parenthesis begins with a whole parenthesised expression. */
  lemma {:induction false} StartsWithParen(functions: Functions, e: Expr) returns (inner: Expr, more: seq<Token>)
    requires Tabled(functions, e) && StartsOpen(e)
    ensures Tabled(functions, inner) && Tokens(e) == [LeftParen] + (Tokens(inner) + ([RightParen] + more))
  {
    match e
    case Paren(x) =>
      inner, more := x, [];
      Assoc([LeftParen], Tokens(x), [RightParen]);
      Empty([RightParen]);
    case Binary(op, l, r) =>
      FirstOf(Tokens(l), [OpToken(op)] + Tokens(r));
      var rest;
      inner, rest := StartsWithParen(functions, l);
      more := rest + [OpToken(op)] + Tokens(r);
      assert Tokens(e) == [LeftParen] + (Tokens(inner) + ([RightParen] + more));
    case Unary(x) =>
  }

  // ----- What any expression leaves alone

  /** Down to the nearest left parenthesis the stacks are as they were; above it only operators wait. */
  predicate Steady(t: State, s: State, base: seq<Node>) {
    && t.calls == s.calls && t.level == s.level
    && |base| <= |t.operators| && t.operators == base + t.operators[|base|..]
    && forall n :: n in t.operators[|base|..] ==> !n.Open?
  }

  /** The part of an operator stack that no operator can pop. */
  predicate Base(base: seq<Node>) { base != [] ==> Top(base).Open? }

  lemma SteadyPush(t: State, s: State, base: seq<Node>, n: Node)
    requires Steady(t, s, base) && !n.Open?
    ensures Steady(t.(operators := t.operators + [n]), s, base)
  {
    assert (t.operators + [n])[|base|..] == t.operators[|base|..] + [n];
  }

  lemma {:induction false} PopForSteady(t: State, s: State, base: seq<Node>, op: Op)
    requires Steady(t, s, base) && Base(base)
    ensures Steady(PopFor(t, op), s, base)
    decreases |t.operators|
  {
    if t.operators != [] && Pops(Top(t.operators), op) {
      var u := t.(output := t.output + [Top(t.operators)], operators := Pop(t.operators));
      assert |t.operators| == |base| ==> t.operators == base by {
        Empty(base);
      }
      assert u.operators[|base|..] == Pop(t.operators[|base|..]);
      PopForSteady(u, s, base, op);
    }
  }

  lemma OperatorSteady(t: State, s: State, base: seq<Node>, op: Op)
    requires Steady(t, s, base) && Base(base)
    ensures Steady(ReadOperator(t, op), s, base)
  {
    PopForSteady(t, s, base, op);
    SteadyPush(PopFor(t, op), s, base, Apply(op));
  }

  /** After an expression in parentheses: everything is as before, except the output. */
  lemma CloseSteady(functions: Functions, t: State, s: State, rest: seq<Token>) returns (u: State)
    requires Steady(t, s.(operators := s.operators + [Open], level := s.level + 1), s.operators + [Open]) && Inside(s)
    ensures Run(functions, t, [RightParen] + rest) == Run(functions, u, rest) && u.operators == s.operators
    ensures u.calls == s.calls && u.level == s.level
  {
    var base := s.operators + [Open];
    PopToOpenAll(t, base, t.operators[|base|..]);
    Snoc(s.operators, Open);
    u := PopToOpen(t).(operators := s.operators, level := s.level);
    assert Step(functions, t, RightParen, First(rest)) == Ok(u);
    RunCons(functions, t, RightParen, rest);
  }

  /** The closing parenthesis of a call looks its function up. */
  lemma CloseCallSteady(functions: Functions, t: State, s: State, name: string, count: nat, rest: seq<Token>)
    returns (u: State)
    requires Steady(t, Entered(s, name, count), Entered(s, name, count).operators)
    ensures var target := FindFunction(functions, name, count);
            if target.None? then Run(functions, t, [RightParen] + rest).Err?
            else
              && Run(functions, t, [RightParen] + rest) == Run(functions, u, rest)
              && u.operators == s.operators + [Invoke(name, count, target)] && u.calls == s.calls && u.level == s.level
  {
    var node, base := Invoke(name, count, None), Entered(s, name, count).operators;
    PopToOpenAll(t, base, t.operators[|base|..]);
    SnocAppend(s.operators, [node], Open);
    SetAt(s.operators, node, [], node.(target := FindFunction(functions, name, count)));
    Empty([node]);
    Empty([node.(target := FindFunction(functions, name, count))]);
    Snoc(s.calls, OpenCall(|s.operators|, s.level));
    var closed := ReadClose(functions, t);
    assert Step(functions, t, RightParen, First(rest)) == closed;
    RunCons(functions, t, RightParen, rest);
    u := if closed.Ok? then closed.value else s;
  }

  lemma EnteredSteady(s: State, name: string, count: nat)
    ensures var u := Entered(s, name, count); Inside(u) && Base(u.operators) && Steady(u, u, u.operators)
  {
  }

  /** A word operator in front of a parenthesis is taken for the name of a call that nobody knows. */
  lemma {:induction false} WordFails(functions: Functions, op: Op, r: Expr, s: State, rest: seq<Token>)
    requires Tabled(functions, r) && StartsOpen(r) && Word(op).Some? && WordsFree(functions)
    ensures Run(functions, s, [OpToken(op)] + (Tokens(r) + rest)).Err?
    decreases |Tokens(r)|, 1
  {
    hide Run, Steady;
    var inner, more := StartsWithParen(functions, r);
    var name, after := Word(op).value, more + rest;
    assert [OpToken(op)] + (Tokens(r) + rest) == Tokens(Call(name, [inner])) + after;
    OpenCallAt(functions, name, [inner], s, after);
    var u := Entered(s, name, 1);
    EnteredSteady(s, name, 1);
    var t := ReadSteady(functions, inner, u, u.operators, [RightParen] + after);
    if WordsApart(inner) {
      var v := CloseCallSteady(functions, t, s, name, 1, after);
    }
  }

  /** Reading any expression ends in an error if a word operator stands before a parenthesis in it; otherwise
      it goes through, and touches nothing below the nearest left parenthesis. */
  lemma {:induction false} ReadSteady(functions: Functions, e: Expr, s: State, base: seq<Node>, rest: seq<Token>)
    returns (t: State)
    requires Tabled(functions, e) && WordsFree(functions)
    requires Steady(s, s, base) && Base(base) && Inside(s) && Continues(rest)
    ensures if WordsApart(e) then Run(functions, s, Tokens(e) + rest) == Run(functions, t, rest) && Steady(t, s, base)
            else Run(functions, s, Tokens(e) + rest).Err?
    decreases |Tokens(e)|, 0
  {
    hide Run, Step, Steady, Base;
    match e
    case Literal(_) => t := ReadLeaf(functions, e, s, base, rest);
    case Variable(_) => t := ReadLeaf(functions, e, s, base, rest);
    case Paren(inner) =>
      OpenParen(functions, inner, s, rest);
      var u := s.(operators := s.operators + [Open], level := s.level + 1);
      OpenedSteady(s);
      t := ReadSteady(functions, inner, u, u.operators, [RightParen] + rest);
      if WordsApart(inner) {
        t := CloseSteady(functions, t, s, rest);
        SameSteady(t, s, base);
      }
    case Unary(x) =>
      Assoc([OpToken(Not)], Tokens(x), rest);
      if StartsOpen(x) {
        WordFails(functions, Not, x, s, rest);
        t := s;
      } else {
        FirstOf(Tokens(x), rest);
        t := ReadAfter(functions, Not, x, s, s, base, rest);
      }
    case Binary(op, l, r) =>
      Assoc4(Tokens(l), [OpToken(op)], Tokens(r), rest);
      t := ReadSteady(functions, l, s, base, [OpToken(op)] + (Tokens(r) + rest));
      if WordsApart(l) {
        if Word(op).Some? && StartsOpen(r) {
          WordFails(functions, op, r, t, rest);
        } else {
          FirstOf(Tokens(r), rest);
          t := ReadAfter(functions, op, r, t, s, base, rest);
        }
      }
    case Call(name, args) =>
      OpenCallAt(functions, name, args, s, rest);
      var u := Entered(s, name, if args == [] then 0 else 1);
      EnteredSteady(s, name, if args == [] then 0 else 1);
      t := u;
      if args == [] {
        Empty([RightParen] + rest);
      } else {
        t := ReadArgsSteady(functions, args, s, name, 1, u, [RightParen] + rest);
      }
      if WordsApartArgs(args) {
        t := CloseCallSteady(functions, t, s, name, |args|, rest);
        SameSteady(s, s, base);
        CalledSteady(t, s, base);
      }
  }

  lemma OpenedSteady(s: State)
    ensures var u := s.(operators := s.operators + [Open], level := s.level + 1);
            Steady(u, u, u.operators) && Base(u.operators) && (Inside(s) ==> Inside(u))
  {
  }

  lemma SameSteady(t: State, s: State, base: seq<Node>)
    requires Steady(s, s, base) && t.operators == s.operators && t.calls == s.calls && t.level == s.level
    ensures Steady(t, s, base)
  {
  }

  lemma CalledSteady(t: State, s: State, base: seq<Node>)
    requires Steady(s, s, base) && t.calls == s.calls && t.level == s.level
    requires |t.operators| == |s.operators| + 1 && t.operators[..|s.operators|] == s.operators
    requires !Top(t.operators).Open?
    ensures Steady(t, s, base)
  {
    SteadyPush(s, s, base, Top(t.operators));
    LastOf(t.operators);
  }

  lemma ReadLeaf(functions: Functions, e: Expr, s: State, base: seq<Node>, rest: seq<Token>) returns (t: State)
    requires (e.Literal? || e.Variable?) && Tabled(functions, e)
    requires Steady(s, s, base) && Continues(rest)
    ensures Run(functions, s, Tokens(e) + rest) == Run(functions, t, rest) && Steady(t, s, base)
    ensures t == s.(output := s.output + Postfix(functions, e))
  {
    t := s.(output := s.output + Postfix(functions, e));
    var token := if e.Variable? then Id(e.name) else if Reserved(e.text) then Id(e.text) else Lit(e.text);
    RunCons(functions, s, token, rest);
  }

  /** An operator and its right operand. */
  lemma {:induction false} ReadAfter(functions: Functions, op: Op, r: Expr, u: State, s: State, base: seq<Node>,
                                     rest: seq<Token>)
    returns (t: State)
    requires Tabled(functions, r) && WordsFree(functions) && (Word(op).Some? ==> !StartsOpen(r))
    requires Steady(u, s, base) && Base(base) && Inside(s) && Continues(rest)
    ensures if WordsApart(r)
            then Run(functions, u, [OpToken(op)] + (Tokens(r) + rest)) == Run(functions, t, rest) && Steady(t, s, base)
            else Run(functions, u, [OpToken(op)] + (Tokens(r) + rest)).Err?
    decreases |Tokens(r)|, 2
  {
    hide Run, Base, Steady, PopFor;
    var v := ReadOperator(u, op);
    OperatorSteady(u, s, base, op);
    FirstOf(Tokens(r), rest);
    assert Step(functions, u, OpToken(op), First(Tokens(r) + rest)) == Ok(v);
    RunCons(functions, u, OpToken(op), Tokens(r) + rest);
    SteadyFrom(v, v, s, base);
    t := ReadSteady(functions, r, v, base, rest);
    if WordsApart(r) {
      SteadyFrom(t, v, s, base);
    }
  }

  lemma SteadyFrom(t: State, v: State, s: State, base: seq<Node>)
    requires Steady(v, s, base)
    ensures Steady(v, v, base) && (Inside(s) ==> Inside(v)) && (Steady(t, v, base) ==> Steady(t, s, base))
  {
  }

  lemma {:induction false} ReadArgsSteady(functions: Functions, args: seq<Expr>, s: State, name: string, count: nat,
                                          u: State,
                                          close: seq<Token>) returns (t: State)
    requires args != [] && TabledArgs(functions, args) && WordsFree(functions) && Continues(close)
    requires var base := Entered(s, name, count); Steady(u, base, base.operators)
    ensures var base := Entered(s, name, count + |args| - 1);
            if WordsApartArgs(args)
            then
              Run(functions, u, ArgTokens(args) + close) == Run(functions, t, close) && Steady(t, base, base.operators)
            else Run(functions, u, ArgTokens(args) + close).Err?
    decreases |ArgTokens(args)|, 1
  {
    hide Run, Step;
    var b := Entered(s, name, count);
    EnteredSteady(s, name, count);
    if |args| == 1 {
      assert WordsApartArgs(args[1..]);
      t := ReadSteady(functions, args[0], u, b.operators, close);
    } else {
      var tail := ArgTokens(args[1..]) + close;
      Assoc4(Tokens(args[0]), [Comma], ArgTokens(args[1..]), close);
      assert ArgTokens(args) + close == Tokens(args[0]) + ([Comma] + tail);
      t := ReadSteady(functions, args[0], u, b.operators, [Comma] + tail);
      if WordsApart(args[0]) {
        t := CommaSteady(functions, t, s, name, count, tail);
        t := ReadArgsSteady(functions, args[1..], s, name, count + 1, t, close);
      }
    }
  }

  lemma CommaSteady(functions: Functions, t: State, s: State, name: string, count: nat, rest: seq<Token>)
    returns (u: State)
    requires var b := Entered(s, name, count); Steady(t, b, b.operators)
    ensures Run(functions, t, [Comma] + rest) == Run(functions, u, rest)
    ensures var b := Entered(s, name, count + 1); Steady(u, b, b.operators) && u.output == t.output
  {
    hide Run, Step;
    var waiting := t.operators[|Entered(s, name, count).operators|..];
    ReadComma(functions, name, count, s, t.output, waiting, rest);
    u := Held(s, name, count + 1, t.output, waiting);
    assert t == Held(s, name, count, t.output, waiting);
    assert u.operators[|Entered(s, name, count + 1).operators|..] == waiting;
  }

  /** The parser reports an error exactly when a word operator stands before a parenthesis. */
  lemma FailsExactly(functions: Functions, e: Expr)
    requires Tabled(functions, e) && WordsFree(functions)
    ensures Parse(functions, Tokens(e)).Err? <==> !WordsApart(e)
  {
    var t := ReadSteady(functions, e, Start(), [], []);
    Empty(Tokens(e));
  }
}
