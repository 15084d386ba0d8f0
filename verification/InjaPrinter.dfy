/** Writing an expression tree with parentheses where the table or a comma asks for them. */
module InjaPrinter {
  import opened InjaSyntax
  import opened InjaParser
  import opened InjaParserProofs
  import opened InjaParserLimits
  import opened Seqs
  import opened Wrappers

  function Guard(needed: bool, e: Expr): Expr { if needed then Paren(e) else e }

  function Print(e: Expr): Expr
    decreases e, 0
  {
    match e
    case Paren(inner) => Paren(Print(inner))
    case Unary(x) => Unary(Guard(!RightBare(Print(x), Not), Print(x)))
    case Binary(op, l, r) =>
      Binary(op, Guard(!LeftBare(Print(l), op), Print(l)), Guard(!RightBare(Print(r), op), Print(r)))
    case Call(name, args) => Call(name, PrintArgs(args))
    case _ => e
  }

  function PrintArgs(args: seq<Expr>): (p: seq<Expr>)
    ensures |p| == |args|
    decreases args, 1
  {
    if args == [] then []
    else [Guard(|args| > 1 && !Closed(Print(args[0])), Print(args[0]))] + PrintArgs(args[1..])
  }

  /** Variables and functions are not words of the language, binary operators are binary, and every called
      function is registered with that many arguments. */
  predicate WellNamed(functions: Functions, e: Expr)
    decreases e, 0
  {
    match e
    case Literal(_) => true
    case Variable(name) => OpOfWord(name).None? && !Reserved(name)
    case Paren(inner) => WellNamed(functions, inner)
    case Unary(x) => WellNamed(functions, x)
    case Binary(op, l, r) => op != Not && WellNamed(functions, l) && WellNamed(functions, r)
    case Call(name, args) =>
      && !Reserved(name) && FindFunction(functions, name, |args|).Some?
      && (FindFunction(functions, name, |args|) == Some(Default) ==> |args| == 2)
      && WellNamedArgs(functions, args)
  }

  predicate WellNamedArgs(functions: Functions, args: seq<Expr>)
    decreases args, 1
  {
    args != [] ==> WellNamed(functions, args[0]) && WellNamedArgs(functions, args[1..])
  }

  /** What is printed is parenthesised well enough, and stands for the same postfix list. */
  lemma {:induction false} PrintSound(functions: Functions, e: Expr)
    requires WellNamed(functions, e)
    ensures Sound(functions, Print(e)) && Postfix(functions, Print(e)) == Postfix(functions, e)
    decreases e, 0
  {
    match e
    case Paren(inner) => PrintSound(functions, inner);
    case Unary(x) => PrintSound(functions, x);
    case Binary(op, l, r) =>
      PrintSound(functions, l);
      PrintSound(functions, r);
    case Call(name, args) => PrintArgsSound(functions, args);
    case _ =>
  }

  lemma {:induction false} PrintArgsSound(functions: Functions, args: seq<Expr>)
    requires WellNamedArgs(functions, args)
    ensures SoundArgs(functions, PrintArgs(args))
    ensures ArgsPostfix(functions, PrintArgs(args)) == ArgsPostfix(functions, args)
    decreases args, 1
  {
    if args != [] {
      PrintSound(functions, args[0]);
      PrintArgsSound(functions, args[1..]);
      assert PrintArgs(args)[1..] == PrintArgs(args[1..]);
    }
  }

  /** Every tree can be written so that the parser reads it back, except where the table forces a parenthesis
      right after a word operator; then the parser reports an error. */
  lemma PrintedIsRead(functions: Functions, e: Expr)
    requires WellNamed(functions, e) && WordsFree(functions)
    ensures Parse(functions, Tokens(Print(e))) == Ok(Postfix(functions, e)) <==> WordsApart(Print(e))
    ensures Parse(functions, Tokens(Print(e))).Err? <==> !WordsApart(Print(e))
  {
    PrintSound(functions, e);
    FailsExactly(functions, Print(e));
    if WordsApart(Print(e)) {
      ParserIsPostfix(functions, Print(e));
    }
  }

  /** and and or have one precedence: a or b and c is read as (a or b) and c. */
  lemma OrThenAnd(functions: Functions, a: Expr, b: Expr, c: Expr)
    requires Sound(functions, Binary(And, Binary(Or, a, b), c)) && WordsApart(Binary(And, Binary(Or, a, b), c))
    ensures Parse(functions, Tokens(Binary(Or, a, Binary(And, b, c)))) ==
              Ok(Postfix(functions, Binary(And, Binary(Or, a, b), c)))
  {
    Assoc(Tokens(a) + [OpToken(Or)], Tokens(b), [OpToken(And)]);
    Assoc(Tokens(a) + [OpToken(Or)], Tokens(b) + [OpToken(And)], Tokens(c));
    ParserIsPostfix(functions, Binary(And, Binary(Or, a, b), c));
  }

  /** And a and (b or c) cannot be written at all. */
  lemma AndOfOr(functions: Functions, a: Expr, b: Expr, c: Expr)
    requires WordsFree(functions) && WellNamed(functions, Binary(And, a, Binary(Or, b, c)))
    ensures Parse(functions, Tokens(Print(Binary(And, a, Binary(Or, b, c))))).Err?
  {
    var inner := Binary(Or, b, c);
    assert Print(inner).Binary? && Print(inner).op == Or;
    PrintedIsRead(functions, Binary(And, a, inner));
  }
}
