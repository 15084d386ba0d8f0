/** The parser and the renderer as the objects they are: fields changed step by step, loops over their
    stacks. Each method is proved against the functions of InjaParser and InjaEval. */
module InjaMachines {
  import opened InjaSyntax
  import opened InjaParser
  import opened InjaParserProofs
  import opened InjaParserLimits
  import opened InjaCommas
  import opened InjaPrinter
  import opened InjaEval
  import opened InjaEvalProofs
  import opened Seqs
  import opened Wrappers

  /** The part of inja::Parser that reads one expression; the tokens up to the closing one are given. */
  class ExpressionParser {
    const functions: Functions
    const tokens: seq<Token>
    var pos: nat
    var output: seq<Node>        // current_expression_list->rpn_output
    var operators: seq<Node>     // operator_stack
    var calls: seq<OpenCall>     // function_stack
    var level: int               // current_paren_level

    constructor (functions: Functions, tokens: seq<Token>)
      ensures this.functions == functions && this.tokens == tokens && pos == 0 && Fields() == Start()
    {
      this.functions, this.tokens := functions, tokens;
      pos, output, operators, calls, level := 0, [], [], [], 0;
    }

    function Fields(): State
      reads this
    {
      State(output, operators, calls, level)
    }

    method MoveTop()
      requires operators != []
      modifies `output, `operators
      ensures Fields() ==
              old(Fields()).(output := old(output) + [Top(old(operators))], operators := Pop(old(operators)))
    {
      output := output + [operators[|operators| - 1]];
      operators := operators[..|operators| - 1];
    }

    method PushOperator(op: Op)
      modifies `output, `operators
      ensures Fields() == ReadOperator(old(Fields()), op)
    {
      while operators != [] && Pops(operators[|operators| - 1], op)
        invariant PopFor(Fields(), op) == PopFor(old(Fields()), op)
        invariant calls == old(calls) && level == old(level)
        decreases |operators|
      {
        MoveTop();
      }
      operators := operators + [Apply(op)];
    }

    /** case RightParen */
    method CloseParen() returns (error: Option<ParseError>)
      modifies `output, `operators, `calls, `level
      ensures ReadClose(functions, old(Fields())) == if error.None? then Ok(Fields()) else Err(error.value)
    {
      while operators != [] && !operators[|operators| - 1].Open?
        invariant PopToOpen(Fields()) == PopToOpen(old(Fields()))
        decreases |operators|
      {
        MoveTop();
      }
      if operators == [] {
        return Some(Undefined);
      }
      level := level - 1;
      operators := operators[..|operators| - 1];
      if calls != [] && calls[|calls| - 1].level == level {
        var i := calls[|calls| - 1].index;
        if i >= |operators| || !operators[i].Invoke? {
          return Some(Undefined);
        }
        var func := operators[i];
        var data := FindFunction(functions, func.name, func.args);
        if data.None? {
          return Some(UnknownFunction(func.name));
        }
        operators := operators[i := func.(target := data)];
        calls := calls[..|calls| - 1];
      }
      return None;
    }

    /** function_stack.top().first->number_args */
    method SetCount(args: nat) returns (error: Option<ParseError>)
      requires calls != []
      modifies `operators
      ensures error == if CallInPlace(old(Fields())) then None else Some(Undefined)
      ensures Fields() == if error.None? then SetArgs(old(Fields()), args) else old(Fields())
    {
      var i := calls[|calls| - 1].index;
      if i >= |operators| || !operators[i].Invoke? {
        return Some(Undefined);
      }
      operators := operators[i := operators[i].(args := args)];
      return None;
    }

    /** One token of the loop. */
    method ReadToken(tok: Token, peek: Option<Token>) returns (error: Option<ParseError>)
      modifies `output, `operators, `calls, `level
      ensures Step(functions, old(Fields()), tok, peek) == if error.None? then Ok(Fields()) else Err(error.value)
    {
      error := None;
      match tok
      case Lit(text) => output := output + [InjaSyntax.Value(text)];
      case Id(text) =>
        if Reserved(text) {
          output := output + [InjaSyntax.Value(text)];
        } else if peek == Some(LeftParen) {
          calls := calls + [OpenCall(|operators|, level)];
          operators := operators + [Invoke(text, 1, None)];
        } else if OpOfWord(text).Some? {
          PushOperator(OpOfWord(text).value);
        } else {
          output := output + [Lookup(text)];
        }
      case Symbol(op) => PushOperator(op);
      case Comma =>
        if calls == [] {
          return Some(UnexpectedComma);
        }
        var i := calls[|calls| - 1].index;
        error := SetCount(if i < |operators| && operators[i].Invoke? then operators[i].args + 1 else 0);
      case Colon => return Some(UnexpectedColon);
      case LeftParen =>
        level := level + 1;
        operators := operators + [Open];
        if peek == Some(RightParen) && calls != [] && calls[|calls| - 1].level == level - 1 {
          error := SetCount(0);
        }
      case RightParen => error := CloseParen();
    }

    method ParseExpression() returns (error: Option<ParseError>)
      requires pos <= |tokens|
      modifies this
      ensures var r := Run(functions, old(Fields()), tokens[old(pos)..]);
              if error.None? then r.Ok? && Fields() == PopAll(r.value) && pos == |tokens| else r == Err(error.value)
    {
      while pos < |tokens|
        invariant pos <= |tokens|
        invariant Run(functions, Fields(), tokens[pos..]) == Run(functions, old(Fields()), tokens[old(pos)..])
      {
        ghost var ahead := tokens[pos..];
        assert Peek(ahead) == if pos + 1 < |tokens| then Some(tokens[pos + 1]) else None;
        error := ReadToken(tokens[pos], if pos + 1 < |tokens| then Some(tokens[pos + 1]) else None);
        if error.Some? {
          return;
        }
        pos := pos + 1;
        assert tokens[pos..] == ahead[1..];
      }
      error := None;
      while operators != []
        invariant PopAll(Fields()) == PopAll(Run(functions, old(Fields()), tokens[old(pos)..]).value)
        invariant pos == |tokens| && Run(functions, old(Fields()), tokens[old(pos)..]).Ok?
        decreases |operators|
      {
        MoveTop();
      }
    }
  }

  /** parse_expression from its initial state, on what an author wrote. */
  method ParseWritten(functions: Functions, e: Expr) returns (nodes: Result<seq<Node>, ParseError>)
    requires Tabled(functions, e) && WordsFree(functions)
    ensures nodes.Err? <==> !WordsApart(e)
    ensures CommasApart(e) && WordsApart(e) ==> nodes == Ok(Postfix(functions, e))
    ensures PlainCalls(e) ==> (nodes == Ok(Postfix(functions, e)) <==> WordsApart(e) && CommasApart(e))
  {
    var p := new ExpressionParser(functions, Tokens(e));
    var error := p.ParseExpression();
    assert Tokens(e)[0..] == Tokens(e);
    nodes := if error.None? then Ok(p.output) else Err(error.value);
    FailsExactly(functions, e);
    if CommasApart(e) && WordsApart(e) {
      ParserIsPostfix(functions, e);
    }
    if PlainCalls(e) {
      ParsesExactly(functions, e);
    }
  }

  /** The part of inja::Renderer that evaluates one expression list. */
  class Renderer<V> {
    const env: Env<V>
    var stack: seq<Option<V>>    // json_eval_stack
    var missing: seq<string>     // not_found_stack

    constructor (env: Env<V>)
      ensures this.env == env && stack == [] && missing == []
    {
      this.env := env;
      stack, missing := [], [];
    }

    function Stacks(): Machine<V>
      reads this
    {
      Machine(stack, missing)
    }

    method TakeOne(needed: bool) returns (r: Result<Option<V>, EvalError>)
      modifies `stack, `missing
      ensures PopOne(old(Stacks()), needed) == if r.Ok? then Ok((Stacks(), r.value)) else Err(r.error)
    {
      if stack == [] {
        return Err(TooFew);
      }
      var top := stack[|stack| - 1];
      stack := stack[..|stack| - 1];
      if top.None? {
        if missing == [] {
          return Err(Unspecified);
        }
        var name := missing[|missing| - 1];
        missing := missing[..|missing| - 1];
        if needed {
          return Err(NotFound(name));
        }
      }
      return Ok(top);
    }

    /** get_arguments<N> and get_argument_vector: the result is filled from the back. */
    method GetArguments(n: nat) returns (r: Result<seq<V>, EvalError>)
      modifies `stack, `missing
      ensures PopArguments(old(Stacks()), n) == if r.Ok? then Ok((Stacks(), r.value)) else Err(r.error)
    {
      var args: seq<V> := [];
      var i := 0;
      BehindNone(PopArguments(Stacks(), n));
      while i < n
        invariant i <= n
        invariant PopArguments(old(Stacks()), n) == Behind(PopArguments(Stacks(), n - i), args)
      {
        ghost var m := Stacks();
        var top := TakeOne(true);
        if top.Err? {
          return Err(top.error);
        }
        if top.value.None? {
          return Err(Unspecified);
        }
        BehindOne(m, n - i, args);
        args := [top.value.value] + args;
        i := i + 1;
      }
      Empty(args);
      return Ok(args);
    }

    method PushOutcome(r: Result<V, string>) returns (error: Option<EvalError>)
      modifies `stack
      ensures PushResult(old(Stacks()), r) == if error.None? then Ok(Stacks()) else Err(error.value)
    {
      match r
      case Ok(v) =>
        stack := stack + [Some(v)];
        return None;
      case Err(message) => return Some(Failed(message));
    }

    /** visit(FunctionNode) for an operator. */
    method VisitOperator(op: Op) returns (error: Option<EvalError>)
      modifies `stack, `missing
      ensures ExecOp(env, old(Stacks()), op) == if error.None? then Ok(Stacks()) else Err(error.value)
    {
      if |stack| < Arity(op) {
        return Some(TooFew);
      }
      var args := GetArguments(Arity(op));
      if args.Err? {
        return Some(args.error);
      }
      var r := if op == Not then env.unary(args.value[0]) else env.binary(op, args.value[0], args.value[1]);
      error := PushOutcome(r);
    }

    /** case Op::Default */
    method VisitDefault() returns (error: Option<EvalError>)
      modifies `stack, `missing
      ensures ExecDefault(old(Stacks())) == if error.None? then Ok(Stacks()) else Err(error.value)
    {
      var fallback := TakeOne(true);
      if fallback.Err? {
        return Some(fallback.error);
      }
      var tested := TakeOne(false);
      if tested.Err? {
        return Some(tested.error);
      }
      stack := stack + [if tested.value.Some? then tested.value else fallback.value];
      return None;
    }

    /** visit(FunctionNode) for a function of the table. */
    method VisitFunction(args: nat, target: Option<Function>) returns (error: Option<EvalError>)
      modifies `stack, `missing
      ensures forall name :: Exec(env, old(Stacks()), Invoke(name, args, target)) ==
                if error.None? then Ok(Stacks()) else Err(error.value)
    {
      match target
      case None => return Some(Unspecified);
      case Some(Default) => error := VisitDefault();
      case Some(Other(id)) =>
        var vs := GetArguments(args);
        if vs.Err? {
          return Some(vs.error);
        }
        error := PushOutcome(env.call(id, vs.value));
    }

    /** accept(*this) */
    method Visit(node: Node) returns (error: Option<EvalError>)
      modifies `stack, `missing
      ensures Exec(env, old(Stacks()), node) == if error.None? then Ok(Stacks()) else Err(error.value)
    {
      error := None;
      match node
      case Value(text) => stack := stack + [Some(env.literal(text))];
      case Lookup(name) =>
        stack := stack + [env.lookup(name)];
        if env.lookup(name).None? {
          missing := missing + [name];
        }
      case Apply(op) => error := VisitOperator(op);
      case Invoke(_, args, target) => error := VisitFunction(args, target);
      case Open =>
    }

    method EvalExpressionList(nodes: seq<Node>) returns (r: Result<V, EvalError>)
      modifies `stack, `missing
      ensures r.Ok? ==> Evaluate(env, old(Stacks()), nodes) == Ok((Stacks(), r.value))
      ensures r.Err? ==> Evaluate(env, old(Stacks()), nodes) == Err(r.error)
    {
      var i := 0;
      while i < |nodes|
        invariant i <= |nodes|
        invariant ExecAll(env, Stacks(), nodes[i..]) == ExecAll(env, old(Stacks()), nodes)
      {
        ghost var ahead := nodes[i..];
        var error := Visit(nodes[i]);
        if error.Some? {
          return Err(error.value);
        }
        i := i + 1;
        assert nodes[i..] == ahead[1..];
      }
      if stack == [] {
        return Err(NoValue);
      }
      if |stack| != 1 {
        return Err(TooMany);
      }
      var result := stack[0];
      stack := [];
      if result.None? {
        return Err(if missing == [] then Unspecified else NotFound(missing[|missing| - 1]));
      }
      return Ok(result.value);
    }
  }

  /** Arguments popped earlier follow those popped later. */
  function Behind<V>(r: Result<(Machine<V>, seq<V>), EvalError>, args: seq<V>)
    : Result<(Machine<V>, seq<V>), EvalError>
  {
    match r
    case Ok((m, vs)) => Ok((m, vs + args))
    case Err(e) => Err(e)
  }

  lemma BehindNone<V>(r: Result<(Machine<V>, seq<V>), EvalError>)
    ensures Behind(r, []) == r
  {
    if r.Ok? {
      Empty(r.value.1);
    }
  }

  lemma BehindOne<V>(m: Machine<V>, n: nat, args: seq<V>)
    requires n > 0 && PopOne(m, true).Ok? && PopOne(m, true).value.1.Some?
    ensures var (rest, top) := PopOne(m, true).value;
            Behind(PopArguments(m, n), args) == Behind(PopArguments(rest, n - 1), [top.value] + args)
  {
    var (rest, top) := PopOne(m, true).value;
    if PopArguments(rest, n - 1).Ok? {
      Assoc(PopArguments(rest, n - 1).value.1, [top.value], args);
    }
  }

  /** A renderer with empty stacks, given what the parser made of e, answers with the meaning of e and is
      ready for the next expression. */
  method Render<V>(renderer: Renderer<V>, functions: Functions, e: Expr) returns (r: Result<V, EvalError>)
    requires WellNamed(functions, e) && Sound(functions, e) && WordsApart(e) && WordsFree(functions)
    requires renderer.stack == []
    modifies renderer
    ensures r == Meaning(renderer.env, functions, e)
    ensures r.Ok? ==> renderer.Stacks() == old(renderer.Stacks())
  {
    var nodes := ParseWritten(functions, e);
    ParserIsPostfix(functions, e);
    ParseThenRun(renderer.env, functions, e, renderer.missing);
    r := renderer.EvalExpressionList(nodes.value);
  }
}
