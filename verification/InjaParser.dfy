/** The expression parser (src/headers/maycloud/inja.hpp:2774-3003): a shunting yard over an operator stack. */
module InjaParser {
  import opened InjaSyntax
  import opened Wrappers

  datatype ParseError = UnexpectedComma | UnexpectedColon | UnknownFunction(name: string) | Undefined

  /** A call whose closing parenthesis has not been read: where its node is on the operator stack, and the
      parenthesis level at which it began. */
  datatype OpenCall = OpenCall(index: nat, level: int)

  datatype State = State(output: seq<Node>, operators: seq<Node>, calls: seq<OpenCall>, level: int)

  function Start(): State { State([], [], [], 0) }

  function Top<T>(s: seq<T>): T
    requires s != []
  {
    s[|s| - 1]
  }

  function Pop<T>(s: seq<T>): seq<T>
    requires s != []
  {
    s[..|s| - 1]
  }

  /** Moves operators to the output while op pops them. */
  function PopFor(s: State, op: Op): State
    decreases |s.operators|
  {
    if s.operators != [] && Pops(Top(s.operators), op) then
      PopFor(s.(output := s.output + [Top(s.operators)], operators := Pop(s.operators)), op)
    else s
  }

  /** Moves operators to the output down to the nearest left parenthesis. */
  function PopToOpen(s: State): State
    decreases |s.operators|
  {
    if s.operators != [] && !Top(s.operators).Open? then
      PopToOpen(s.(output := s.output + [Top(s.operators)], operators := Pop(s.operators)))
    else s
  }

  /** Moves every operator to the output. */
  function PopAll(s: State): State
    decreases |s.operators|
  {
    if s.operators == [] then s
    else PopAll(s.(output := s.output + [Top(s.operators)], operators := Pop(s.operators)))
  }

  function ReadOperator(s: State, op: Op): State {
    var t := PopFor(s, op);
    t.(operators := t.operators + [Apply(op)])
  }

  /** The node of the innermost open call, if it is where the call left it. */
  predicate CallInPlace(s: State) {
    s.calls != [] && Top(s.calls).index < |s.operators| && s.operators[Top(s.calls).index].Invoke?
  }

  function SetArgs(s: State, args: nat): State
    requires CallInPlace(s)
  {
    var i := Top(s.calls).index;
    s.(operators := s.operators[i := s.operators[i].(args := args)])
  }

  /** A closing parenthesis; taking the top of an empty stack is undefined in C++. */
  function ReadClose(functions: Functions, s: State): Result<State, ParseError> {
    var t := PopToOpen(s);
    if t.operators == [] then Err(Undefined)
    else
      var u := t.(operators := Pop(t.operators), level := t.level - 1);
      if u.calls == [] || Top(u.calls).level != u.level then Ok(u)
      else if !CallInPlace(u) then Err(Undefined)
      else
        var i := Top(u.calls).index;
        var f := u.operators[i];
        match FindFunction(functions, f.name, f.args)
        case None => Err(UnknownFunction(f.name))
        case Some(target) =>
          Ok(u.(operators := u.operators[i := f.(target := Some(target))], calls := Pop(u.calls)))
  }

  /** One round of the loop: the current token, and the one after it. */
  function Step(functions: Functions, s: State, token: Token, peek: Option<Token>): Result<State, ParseError> {
    match token
    case Lit(v) => Ok(s.(output := s.output + [Value(v)]))
    case Id(text) =>
      if Reserved(text) then Ok(s.(output := s.output + [Value(text)]))
      else if peek.Some? && peek.value.LeftParen? then
        Ok(s.(operators := s.operators + [Invoke(text, 1, None)],
              calls := s.calls + [OpenCall(|s.operators|, s.level)]))
      else if OpOfWord(text).Some? then Ok(ReadOperator(s, OpOfWord(text).value))
      else Ok(s.(output := s.output + [Lookup(text)]))
    case Symbol(op) => Ok(ReadOperator(s, op))
    case Comma =>
      if s.calls == [] then Err(UnexpectedComma)
      else if !CallInPlace(s) then Err(Undefined)
      else Ok(SetArgs(s, s.operators[Top(s.calls).index].args + 1))
    case Colon => Err(UnexpectedColon)
    case LeftParen =>
      var t := s.(operators := s.operators + [Open], level := s.level + 1);
      if peek.Some? && peek.value.RightParen? && t.calls != [] && Top(t.calls).level == t.level - 1 then
        if CallInPlace(t) then Ok(SetArgs(t, 0)) else Err(Undefined)
      else Ok(t)
    case RightParen => ReadClose(functions, s)
  }

  function Peek(tokens: seq<Token>): Option<Token> {
    if |tokens| > 1 then Some(tokens[1]) else None
  }

  function Run(functions: Functions, s: State, tokens: seq<Token>): Result<State, ParseError>
    decreases |tokens|
  {
    if tokens == [] then Ok(s)
    else
      match Step(functions, s, tokens[0], Peek(tokens))
      case Ok(t) => Run(functions, t, tokens[1..])
      case Err(e) => Err(e)
  }

  /** parse_expression on the tokens before the closing one. */
  function Parse(functions: Functions, tokens: seq<Token>): Result<seq<Node>, ParseError> {
    match Run(functions, Start(), tokens)
    case Ok(s) => Ok(PopAll(s).output)
    case Err(e) => Err(e)
  }
}
