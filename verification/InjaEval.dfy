/** Evaluating the postfix list on a stack (src/headers/maycloud/inja.hpp:3326-3453, 3587-3591, 3730-3735),
    against evaluating the tree directly. JSON values and the operators on them are parameters. */
module InjaEval {
  import opened InjaSyntax
  import opened InjaParser
  import opened Wrappers

  datatype EvalError =
    | NotFound(name: string)   // a variable that an operator or the caller needed
    | Failed(message: string)  // an operator refused its operands
    | TooFew                   // not enough operands on the stack
    | NoValue | TooMany        // the list does not leave exactly one value
    | Unspecified                // undefined in C++

  /** The values and what the operators do with them. */
  datatype Env<!V> = Env(
    literal: string -> V,
    lookup: string -> Option<V>,
    unary: V -> Result<V, string>,
    binary: (Op, V, V) -> Result<V, string>,
    call: (nat, seq<V>) -> Result<V, string>)

  // ----- Direct evaluation

  /** A value, or a variable that was not found: an error only once somebody needs it. */
  datatype Slot<+V> = Found(value: V) | Missing(name: string)

  function Lift<V>(r: Result<V, string>): Result<Slot<V>, EvalError> {
    match r
    case Ok(v) => Ok(Found(v))
    case Err(m) => Err(Failed(m))
  }

  /** The values of the slots; when some are missing, the last of them is reported. */
  function Need<V>(slots: seq<Slot<V>>): (r: Result<seq<V>, EvalError>)
    ensures r.Ok? ==> |r.value| == |slots|
  {
    if slots == [] then Ok([])
    else
      var last := slots[|slots| - 1];
      if last.Missing? then Err(NotFound(last.name))
      else
        match Need(slots[..|slots| - 1])
        case Ok(vs) => Ok(vs + [last.value])
        case Err(e) => Err(e)
  }

  function Direct<V>(env: Env<V>, functions: Functions, e: Expr): Result<Slot<V>, EvalError>
    decreases e, 0
  {
    match e
    case Literal(text) => Ok(Found(env.literal(text)))
    case Variable(name) => (match env.lookup(name) case Some(v) => Ok(Found(v)) case None => Ok(Missing(name)))
    case Paren(inner) => Direct(env, functions, inner)
    case Unary(x) =>
      (match Direct(env, functions, x)
       case Err(e) => Err(e)
       case Ok(slot) => ApplyOp(env, Not, [slot]))
    case Binary(op, l, r) =>
      (match Direct(env, functions, l)
       case Err(e) => Err(e)
       case Ok(a) =>
         match Direct(env, functions, r)
         case Err(e) => Err(e)
         case Ok(b) => ApplyOp(env, op, [a, b]))
    case Call(name, args) =>
      (match DirectArgs(env, functions, args)
       case Err(e) => Err(e)
       case Ok(slots) => ApplyFunction(env, FindFunction(functions, name, |args|), slots))
  }

  /** The operands, evaluated from left to right. */
  function DirectArgs<V>(env: Env<V>, functions: Functions, args: seq<Expr>): (r: Result<seq<Slot<V>>, EvalError>)
    ensures r.Ok? ==> |r.value| == |args|
    decreases args, 1
  {
    if args == [] then Ok([])
    else
      match Direct(env, functions, args[0])
      case Err(e) => Err(e)
      case Ok(slot) =>
        match DirectArgs(env, functions, args[1..])
        case Err(e) => Err(e)
        case Ok(slots) => Ok([slot] + slots)
  }

  function Arity(op: Op): nat { if op == Not then 1 else 2 }

  function ApplyOp<V>(env: Env<V>, op: Op, slots: seq<Slot<V>>): Result<Slot<V>, EvalError> {
    if |slots| != Arity(op) then Err(TooFew)
    else
      match Need(slots)
      case Err(e) => Err(e)
      case Ok(vs) => Lift(if op == Not then env.unary(vs[0]) else env.binary(op, vs[0], vs[1]))
  }

  /** default(x, y) needs only y. */
  function ApplyFunction<V>(env: Env<V>, target: Option<Function>, slots: seq<Slot<V>>): Result<Slot<V>, EvalError> {
    match target
    case None => Err(Unspecified)
    case Some(Default) =>
      if |slots| != 2 then Err(TooFew)
      else if slots[1].Missing? then Err(NotFound(slots[1].name))
      else Ok(if slots[0].Found? then slots[0] else slots[1])
    case Some(Other(id)) =>
      match Need(slots)
      case Err(e) => Err(e)
      case Ok(vs) => Lift(env.call(id, vs))
  }

  // ----- The stack machine

  /** The evaluation stack, where None is a null pointer, and the stack of names that were not found. */
  datatype Machine<+V> = Machine(stack: seq<Option<V>>, missing: seq<string>)

  function Pushed<V>(m: Machine<V>, v: V): Machine<V> { m.(stack := m.stack + [Some(v)]) }

  /** One round of get_arguments: the top operand, and its name if it is null. */
  function PopOne<V>(m: Machine<V>, needed: bool): Result<(Machine<V>, Option<V>), EvalError> {
    if m.stack == [] then Err(TooFew)
    else
      var top := Top(m.stack);
      var rest := m.(stack := Pop(m.stack));
      if top.Some? then Ok((rest, top))
      else if m.missing == [] then Err(Unspecified)
      else if needed then Err(NotFound(Top(m.missing)))
      else Ok((rest.(missing := Pop(m.missing)), None))
  }

  /** The loop of get_arguments with throw_not_found: n values, the top one last. */
  function PopArguments<V>(m: Machine<V>, n: nat): (r: Result<(Machine<V>, seq<V>), EvalError>)
    ensures r.Ok? ==> |r.value.1| == n
    decreases n
  {
    if n == 0 then Ok((m, []))
    else
      match PopOne(m, true)
      case Err(e) => Err(e)
      case Ok((rest, top)) =>
        if top.None? then Err(Unspecified)
        else
          match PopArguments(rest, n - 1)
          case Err(e) => Err(e)
          case Ok((rest', vs)) => Ok((rest', vs + [top.value]))
  }

  function PushResult<V>(m: Machine<V>, r: Result<V, string>): Result<Machine<V>, EvalError> {
    match r
    case Ok(v) => Ok(Pushed(m, v))
    case Err(message) => Err(Failed(message))
  }

  /** visit(FunctionNode) for an operator. */
  function ExecOp<V>(env: Env<V>, m: Machine<V>, op: Op): Result<Machine<V>, EvalError> {
    if |m.stack| < Arity(op) then Err(TooFew)
    else
      match PopArguments(m, Arity(op))
      case Err(e) => Err(e)
      case Ok((rest, vs)) => PushResult(rest, if op == Not then env.unary(vs[0]) else env.binary(op, vs[0], vs[1]))
  }

  /** default: the default must be found, the tested value need not be. */
  function ExecDefault<V>(m: Machine<V>): Result<Machine<V>, EvalError> {
    match PopOne(m, true)
    case Err(e) => Err(e)
    case Ok((rest, fallback)) =>
      match PopOne(rest, false)
      case Err(e) => Err(e)
      case Ok((rest', tested)) => Ok(rest'.(stack := rest'.stack + [if tested.Some? then tested else fallback]))
  }

  function Exec<V>(env: Env<V>, m: Machine<V>, node: Node): Result<Machine<V>, EvalError> {
    match node
    case Value(text) => Ok(Pushed(m, env.literal(text)))
    case Lookup(name) =>
      (match env.lookup(name)
       case Some(v) => Ok(Pushed(m, v))
       case None => Ok(Machine(m.stack + [None], m.missing + [name])))
    case Apply(op) => ExecOp(env, m, op)
    case Invoke(_, n, Some(Default)) => ExecDefault(m)
    case Invoke(_, n, Some(Other(id))) =>
      (match PopArguments(m, n) case Err(e) => Err(e) case Ok((rest, vs)) => PushResult(rest, env.call(id, vs)))
    case Invoke(_, _, None) => Err(Unspecified)
    case Open => Ok(m)
  }

  function ExecAll<V>(env: Env<V>, m: Machine<V>, nodes: seq<Node>): Result<Machine<V>, EvalError>
    decreases |nodes|
  {
    if nodes == [] then Ok(m)
    else
      match Exec(env, m, nodes[0])
      case Err(e) => Err(e)
      case Ok(t) => ExecAll(env, t, nodes[1..])
  }

  /** The end of eval_expression_list: exactly one value, and not a null one. */
  function Finish<V>(m: Machine<V>): Result<(Machine<V>, V), EvalError> {
    if m.stack == [] then Err(NoValue)
    else if |m.stack| != 1 then Err(TooMany)
    else
      match m.stack[0]
      case Some(v) => Ok((m.(stack := []), v))
      case None => if m.missing == [] then Err(Unspecified) else Err(NotFound(Top(m.missing)))
  }

  function Evaluate<V>(env: Env<V>, m: Machine<V>, nodes: seq<Node>): Result<(Machine<V>, V), EvalError> {
    match ExecAll(env, m, nodes)
    case Err(e) => Err(e)
    case Ok(t) => Finish(t)
  }
}
