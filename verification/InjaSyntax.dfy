/** Template expressions (src/headers/maycloud/inja.hpp): trees, their text as tokens, and their postfix order. */
module InjaSyntax {
  import opened Wrappers

  datatype Op =
    | Not | And | Or | In | Equal | NotEqual | Greater | GreaterEqual | Less | LessEqual
    | Add | Subtract | Multiplication | Division | Power | Modulo

  datatype Associativity = Left | Right

  /** The precedence table of FunctionNode. */
  function Precedence(op: Op): nat {
    match op
    case And | Or => 1
    case In | Equal | NotEqual | Greater | GreaterEqual | Less | LessEqual => 2
    case Add | Subtract => 3
    case Not | Multiplication | Division | Modulo => 4
    case Power => 5
  }

  function Side(op: Op): Associativity {
    if op == Power then Right else Left
  }

  /** The operators that the lexer delivers as identifiers. */
  function Word(op: Op): Option<string> {
    match op
    case Not => Some("not")
    case And => Some("and")
    case Or => Some("or")
    case In => Some("in")
    case _ => None
  }

  function OpOfWord(text: string): Option<Op> {
    if text == "and" then Some(And) else if text == "or" then Some(Or)
    else if text == "in" then Some(In) else if text == "not" then Some(Not) else None
  }

  /** The identifiers that are JSON literals, whatever follows. */
  predicate Reserved(text: string) { text == "true" || text == "false" || text == "null" }

  /** A JSON literal is one token, its text; true, false and null come as identifiers. */
  datatype Token = Lit(text: string) | Id(text: string) | Symbol(op: Op) | Comma | Colon | LeftParen | RightParen

  /** What a registered name stands for. */
  datatype Function = Default | Other(id: nat)

  type Functions = map<(string, int), Function>

  /** find_function: the exact number of arguments first, then a variadic entry for at least one. */
  function FindFunction(functions: Functions, name: string, args: nat): Option<Function> {
    if (name, args) in functions then Some(functions[(name, args)])
    else if args > 0 && (name, -1) in functions then Some(functions[(name, -1)])
    else None
  }

  /** An expression as it is written; Paren keeps the parentheses that the author put. */
  datatype Expr =
    | Literal(text: string)
    | Variable(name: string)
    | Paren(inner: Expr)
    | Unary(operand: Expr)                            // not
    | Binary(op: Op, left: Expr, right: Expr)
    | Call(name: string, args: seq<Expr>)

  function OpToken(op: Op): Token {
    match Word(op)
    case Some(text) => Id(text)
    case None => Symbol(op)
  }

  function Tokens(e: Expr): (t: seq<Token>)
    ensures |t| > 0
    decreases e, 0
  {
    match e
    case Literal(v) => [if Reserved(v) then Id(v) else Lit(v)]
    case Variable(name) => [Id(name)]
    case Paren(inner) => [LeftParen] + Tokens(inner) + [RightParen]
    case Unary(x) => [OpToken(Not)] + Tokens(x)
    case Binary(op, l, r) => Tokens(l) + [OpToken(op)] + Tokens(r)
    case Call(name, args) => [Id(name), LeftParen] + ArgTokens(args) + [RightParen]
  }

  function ArgTokens(args: seq<Expr>): (t: seq<Token>)
    ensures args != [] ==> |t| > 0
    decreases args, 1
  {
    if args == [] then []
    else if |args| == 1 then Tokens(args[0])
    else Tokens(args[0]) + [Comma] + ArgTokens(args[1..])
  }

  /** A node of the postfix list. Open is the left parenthesis that waits on the operator stack. */
  datatype Node =
    | Value(text: string)
    | Lookup(name: string)
    | Apply(op: Op)
    | Invoke(name: string, args: nat, target: Option<Function>)
    | Open

  function Postfix(functions: Functions, e: Expr): seq<Node>
    decreases e, 0
  {
    match e
    case Literal(v) => [Value(v)]
    case Variable(name) => [Lookup(name)]
    case Paren(inner) => Postfix(functions, inner)
    case Unary(x) => Postfix(functions, x) + [Apply(Not)]
    case Binary(op, l, r) => Postfix(functions, l) + Postfix(functions, r) + [Apply(op)]
    case Call(name, args) =>
      ArgsPostfix(functions, args) + [Invoke(name, |args|, FindFunction(functions, name, |args|))]
  }

  function ArgsPostfix(functions: Functions, args: seq<Expr>): seq<Node>
    decreases args, 1
  {
    if args == [] then [] else Postfix(functions, args[0]) + ArgsPostfix(functions, args[1..])
  }

  // ----- The parentheses that the table asks for

  /** What the operator stack compares: a call counts as precedence 8, left. */
  function NodePrecedence(n: Node): nat {
    match n
    case Apply(op) => Precedence(op)
    case Invoke(_, _, _) => 8
    case _ => 1
  }

  /** An operator read now pops this node off the operator stack. */
  predicate Pops(n: Node, op: Op) {
    && !n.Open?
    && (NodePrecedence(n) > Precedence(op) || (NodePrecedence(n) == Precedence(op) && Side(op) == Left))
  }

  /** The operator at the root of an expression that is not closed. */
  function RootOp(e: Expr): Option<Op> {
    match e
    case Unary(_) => Some(Not)
    case Binary(op, _, _) => Some(op)
    case _ => None
  }

  /** One token or one pair of parentheses: nothing of it waits on the operator stack. */
  predicate Closed(e: Expr) { e.Literal? || e.Variable? || e.Paren? }

  /** The left operand of op needs no parentheses. */
  predicate LeftBare(l: Expr, op: Op) {
    RootOp(l).Some? ==> Pops(Apply(RootOp(l).value), op)
  }

  /** The right operand of op needs no parentheses. */
  predicate RightBare(r: Expr, op: Op) {
    RootOp(r).Some? ==> !Pops(Apply(op), RootOp(r).value)
  }

  /** Parenthesised at least as the table requires, with names that are no words of the language, and every
      called function known. */
  predicate Tabled(functions: Functions, e: Expr)
    decreases e, 0
  {
    match e
    case Literal(_) => true
    case Variable(name) => OpOfWord(name).None? && !Reserved(name)
    case Paren(inner) => Tabled(functions, inner)
    case Unary(x) => Tabled(functions, x) && RightBare(x, Not)
    case Binary(op, l, r) =>
      op != Not && Tabled(functions, l) && Tabled(functions, r) && LeftBare(l, op) && RightBare(r, op)
    case Call(name, args) =>
      !Reserved(name) && FindFunction(functions, name, |args|).Some? && TabledArgs(functions, args)
  }

  predicate TabledArgs(functions: Functions, args: seq<Expr>)
    decreases args, 1
  {
    args != [] ==> Tabled(functions, args[0]) && TabledArgs(functions, args[1..])
  }

  /** The first token is the operator not. */
  predicate LeadsNot(e: Expr) { e.Unary? || (e.Binary? && LeadsNot(e.left)) }

  /** The argument a may stand before the argument b: nothing of a waits at the comma, or b begins with not,
      which puts out all that waits. */
  predicate Apart(a: Expr, b: Expr) { Closed(a) || (LeadsNot(b) && LeftBare(a, Not)) }

  predicate CommasApart(e: Expr)
    decreases e, 0
  {
    match e
    case Literal(_) => true
    case Variable(_) => true
    case Paren(inner) => CommasApart(inner)
    case Unary(x) => CommasApart(x)
    case Binary(op, l, r) => CommasApart(l) && CommasApart(r)
    case Call(_, args) => CommasApartArgs(args)
  }

  predicate CommasApartArgs(args: seq<Expr>)
    decreases args, 1
  {
    args != [] ==> CommasApart(args[0]) && (|args| > 1 ==> Apart(args[0], args[1])) && CommasApartArgs(args[1..])
  }

  /** Both. */
  predicate Sound(functions: Functions, e: Expr) { Tabled(functions, e) && CommasApart(e) }

  predicate SoundArgs(functions: Functions, args: seq<Expr>) { TabledArgs(functions, args) && CommasApartArgs(args) }

  /** The first node of the postfix order is a value, not the call of a function without arguments. */
  predicate StartsPlain(e: Expr) {
    match e
    case Literal(_) => true
    case Variable(_) => true
    case Paren(inner) => StartsPlain(inner)
    case Unary(x) => StartsPlain(x)
    case Binary(op, l, r) => StartsPlain(l)
    case Call(_, args) => args != [] && StartsPlain(args[0])
  }

  /** No argument after the first begins with a call that has no arguments. */
  predicate PlainCalls(e: Expr)
    decreases e, 0
  {
    match e
    case Literal(_) => true
    case Variable(_) => true
    case Paren(inner) => PlainCalls(inner)
    case Unary(x) => PlainCalls(x)
    case Binary(op, l, r) => PlainCalls(l) && PlainCalls(r)
    case Call(_, args) => PlainArgs(args)
  }

  predicate PlainArgs(args: seq<Expr>)
    decreases args, 1
  {
    args != [] ==> PlainCalls(args[0]) && (|args| > 1 ==> StartsPlain(args[1])) && PlainArgs(args[1..])
  }

  /** The expression begins with a parenthesis. */
  predicate StartsOpen(e: Expr) { Tokens(e)[0].LeftParen? }

  /** No operator that is a word is followed by a parenthesis: the parser would take it for a call. */
  predicate WordsApart(e: Expr)
    decreases e, 0
  {
    match e
    case Literal(_) => true
    case Variable(_) => true
    case Paren(inner) => WordsApart(inner)
    case Unary(x) => WordsApart(x) && !StartsOpen(x)
    case Binary(op, l, r) => WordsApart(l) && WordsApart(r) && (Word(op).Some? ==> !StartsOpen(r))
    case Call(_, args) => WordsApartArgs(args)
  }

  predicate WordsApartArgs(args: seq<Expr>)
    decreases args, 1
  {
    args != [] ==> WordsApart(args[0]) && WordsApartArgs(args[1..])
  }
}
