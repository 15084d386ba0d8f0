/** Running the postfix list leaves exactly the value of the tree, or stops with exactly its error. */
module InjaEvalProofs {
  import opened InjaSyntax
  import opened InjaParser
  import opened InjaParserProofs
  import opened InjaPrinter
  import opened InjaEval
  import opened Seqs
  import opened Wrappers

  function PushSlot<V>(m: Machine<V>, slot: Slot<V>): Machine<V> {
    match slot
    case Found(v) => Pushed(m, v)
    case Missing(name) => Machine(m.stack + [None], m.missing + [name])
  }

  function PushSlots<V>(m: Machine<V>, slots: seq<Slot<V>>): Machine<V> {
    if slots == [] then m else PushSlot(PushSlots(m, slots[..|slots| - 1]), slots[|slots| - 1])
  }

  function Pushing<V>(m: Machine<V>, r: Result<Slot<V>, EvalError>): Result<Machine<V>, EvalError> {
    match r
    case Ok(slot) => Ok(PushSlot(m, slot))
    case Err(e) => Err(e)
  }

  function PushingAll<V>(m: Machine<V>, r: Result<seq<Slot<V>>, EvalError>): Result<Machine<V>, EvalError> {
    match r
    case Ok(slots) => Ok(PushSlots(m, slots))
    case Err(e) => Err(e)
  }

  function With<M, T>(m: M, r: Result<T, EvalError>): Result<(M, T), EvalError> {
    match r
    case Ok(v) => Ok((m, v))
    case Err(e) => Err(e)
  }

  lemma {:induction false} PushSlotsSize<V>(m: Machine<V>, slots: seq<Slot<V>>)
    ensures |PushSlots(m, slots).stack| == |m.stack| + |slots|
  {
    if slots != [] {
      PushSlotsSize(m, slots[..|slots| - 1]);
    }
  }

  lemma {:induction false} PushSlotsFirst<V>(m: Machine<V>, slot: Slot<V>, slots: seq<Slot<V>>)
    ensures PushSlots(PushSlot(m, slot), slots) == PushSlots(m, [slot] + slots)
  {
    if slots == [] {
      assert [slot][..0] == [];
    } else {
      var n := |slots| - 1;
      PushSlotsFirst(m, slot, slots[..n]);
      assert ([slot] + slots)[..n + 1] == [slot] + slots[..n];
    }
  }

  lemma PopOneSlot<V>(m: Machine<V>, slot: Slot<V>, needed: bool)
    ensures PopOne(PushSlot(m, slot), needed) ==
            if slot.Found? then Ok((m, Some(slot.value)))
            else if needed then Err(NotFound(slot.name)) else Ok((m, None))
  {
    match slot
    case Found(v) => Snoc(m.stack, Some(v));
    case Missing(name) =>
      Snoc(m.stack, None);
      Snoc(m.missing, name);
  }

  /** Popping what was pushed: the values, or the name of the last missing one; no operand is taken twice
      and no name goes with the wrong operand. */
  lemma {:induction false} PopPushed<V>(m: Machine<V>, slots: seq<Slot<V>>)
    ensures PopArguments(PushSlots(m, slots), |slots|) == With(m, Need(slots))
  {
    if slots != [] {
      var front, last := slots[..|slots| - 1], slots[|slots| - 1];
      PopOneSlot(PushSlots(m, front), last, true);
      PopPushed(m, front);
    }
  }

  lemma {:induction false} ExecAppend<V>(env: Env<V>, m: Machine<V>, a: seq<Node>, b: seq<Node>)
    ensures ExecAll(env, m, a + b) ==
            if ExecAll(env, m, a).Ok? then ExecAll(env, ExecAll(env, m, a).value, b) else ExecAll(env, m, a)
    decreases |a|
  {
    if a == [] {
      Empty(b);
    } else {
      assert (a + b)[1..] == a[1..] + b;
      if Exec(env, m, a[0]).Ok? {
        ExecAppend(env, Exec(env, m, a[0]).value, a[1..], b);
      }
    }
  }

  lemma ExecOne<V>(env: Env<V>, m: Machine<V>, node: Node)
    ensures ExecAll(env, m, [node]) == Exec(env, m, node)
  {
    assert [node][1..] == [];
  }

  lemma OpIsApplied<V>(env: Env<V>, m: Machine<V>, op: Op, slots: seq<Slot<V>>)
    requires |slots| == Arity(op)
    ensures ExecOp(env, PushSlots(m, slots), op) == Pushing(m, ApplyOp(env, op, slots))
  {
    PushSlotsSize(m, slots);
    PopPushed(m, slots);
  }

  /** One or two operands pushed in turn, then the operator. */
  lemma OperatorRuns<V>(env: Env<V>, m: Machine<V>, op: Op, slots: seq<Slot<V>>)
    requires |slots| == Arity(op)
    ensures var pushed := if |slots| == 1 then PushSlot(m, slots[0]) else PushSlot(PushSlot(m, slots[0]), slots[1]);
            ExecAll(env, pushed, [Apply(op)]) == Pushing(m, ApplyOp(env, op, slots))
  {
    var t := PushSlots(m, slots);
    assert PushSlots(m, slots[..1]) == PushSlot(m, slots[0]) by {
      assert slots[..1][..0] == [];
    }
    OpIsApplied(env, m, op, slots);
    ExecOne(env, t, Apply(op));
    if |slots| == 1 {
      assert slots[..1] == slots;
    }
  }

  lemma FunctionIsApplied<V>(env: Env<V>, m: Machine<V>, name: string, target: Option<Function>, slots: seq<Slot<V>>)
    requires target == Some(Default) ==> |slots| == 2
    ensures Exec(env, PushSlots(m, slots), Invoke(name, |slots|, target)) ==
              Pushing(m, ApplyFunction(env, target, slots))
  {
    PopPushed(m, slots);
    if target == Some(Default) {
      var one := PushSlot(m, slots[0]);
      assert slots[..1][..0] == [];
      assert PushSlots(m, slots[..1]) == PushSlot(PushSlots(m, slots[..1][..0]), slots[0]);
      assert PushSlots(m, slots) == PushSlot(one, slots[1]);
      PopOneSlot(one, slots[1], true);
      PopOneSlot(m, slots[0], false);
    }
  }

  /** From any state of the stacks, the postfix list of e adds the value of e and nothing else, or stops
      with the error of e. */
  lemma {:induction false} ExecPostfix<V>(env: Env<V>, functions: Functions, e: Expr, m: Machine<V>)
    requires WellNamed(functions, e)
    ensures ExecAll(env, m, Postfix(functions, e)) == Pushing(m, Direct(env, functions, e))
    decreases e, 1
  {
    match e
    case Literal(text) => ExecOne(env, m, InjaSyntax.Value(text));
    case Variable(name) => ExecOne(env, m, Lookup(name));
    case Paren(inner) => ExecPostfix(env, functions, inner, m);
    case Unary(x) =>
      ExecPostfix(env, functions, x, m);
      ExecAppend(env, m, Postfix(functions, x), [Apply(Not)]);
      if Direct(env, functions, x).Ok? {
        OperatorRuns(env, m, Not, [Direct(env, functions, x).value]);
      }
    case Binary(op, l, r) =>
      ExecPostfix(env, functions, l, m);
      ExecAppend(env, m, Postfix(functions, l) + Postfix(functions, r), [Apply(op)]);
      ExecAppend(env, m, Postfix(functions, l), Postfix(functions, r));
      if Direct(env, functions, l).Ok? {
        var a := Direct(env, functions, l).value;
        ExecPostfix(env, functions, r, PushSlot(m, a));
        if Direct(env, functions, r).Ok? {
          OperatorRuns(env, m, op, [a, Direct(env, functions, r).value]);
        }
      }
    case Call(name, args) =>
      var node := Invoke(name, |args|, FindFunction(functions, name, |args|));
      ExecArgs(env, functions, args, m);
      ExecAppend(env, m, ArgsPostfix(functions, args), [node]);
      if DirectArgs(env, functions, args).Ok? {
        var slots := DirectArgs(env, functions, args).value;
        FunctionIsApplied(env, m, name, node.target, slots);
        ExecOne(env, PushSlots(m, slots), node);
      }
  }

  lemma {:induction false} ExecArgs<V>(env: Env<V>, functions: Functions, args: seq<Expr>, m: Machine<V>)
    requires WellNamedArgs(functions, args)
    ensures ExecAll(env, m, ArgsPostfix(functions, args)) == PushingAll(m, DirectArgs(env, functions, args))
    decreases args, 0
  {
    if args != [] {
      ExecPostfix(env, functions, args[0], m);
      ExecAppend(env, m, Postfix(functions, args[0]), ArgsPostfix(functions, args[1..]));
      if Direct(env, functions, args[0]).Ok? {
        var slot := Direct(env, functions, args[0]).value;
        ExecArgs(env, functions, args[1..], PushSlot(m, slot));
        if DirectArgs(env, functions, args[1..]).Ok? {
          PushSlotsFirst(m, slot, DirectArgs(env, functions, args[1..]).value);
        }
      }
    }
  }

  /** What rendering an expression should give: its value; a missing variable at the very end is an error. */
  function Meaning<V>(env: Env<V>, functions: Functions, e: Expr): Result<V, EvalError> {
    match Direct(env, functions, e)
    case Ok(Found(v)) => Ok(v)
    case Ok(Missing(name)) => Err(NotFound(name))
    case Err(x) => Err(x)
  }

  /** An operator is given the values of its operands, the left one first, and an operand that was not found is
      named, the right one before the left. */
  lemma OperatorMeans<V>(env: Env<V>, functions: Functions, op: Op, l: Expr, r: Expr, a: Slot<V>, b: Slot<V>)
    requires op != Not && Direct(env, functions, l) == Ok(a) && Direct(env, functions, r) == Ok(b)
    ensures Meaning(env, functions, Binary(op, l, r)) ==
            if b.Missing? then Err(NotFound(b.name)) else if a.Missing? then Err(NotFound(a.name))
            else match env.binary(op, a.value, b.value) case Ok(v) => Ok(v) case Err(m) => Err(Failed(m))
  {
    NeedTwo(a, b);
  }

  lemma NeedTwo<V>(a: Slot<V>, b: Slot<V>)
    ensures Need([a, b]) ==
            if b.Missing? then Err(NotFound(b.name)) else if a.Missing? then Err(NotFound(a.name))
            else Ok([a.value, b.value])
  {
    assert [a, b][..1] == [a] && [a][..0] == [];
    if a.Found? {
      Empty([a.value]);
      assert Need([a]) == Ok([a.value]);
      assert b.Found? ==> [a.value] + [b.value] == [a.value, b.value];
    } else {
      assert Need([a]) == Err(NotFound(a.name));
    }
  }

  /** A function is given the values of its arguments, in order. */
  lemma CallMeans<V>(env: Env<V>, functions: Functions, name: string, args: seq<Expr>, id: nat, values: seq<V>)
    requires |values| == |args|
    requires forall k :: 0 <= k < |args| ==> Direct(env, functions, args[k]) == Ok(Found(values[k]))
    requires FindFunction(functions, name, |args|) == Some(Other(id))
    ensures Meaning(env, functions, Call(name, args)) ==
            match env.call(id, values) case Ok(v) => Ok(v) case Err(m) => Err(Failed(m))
  {
    ArgsInOrder(env, functions, args, values);
    AllNeeded(values);
  }

  function Slots<V>(values: seq<V>): seq<Slot<V>> {
    if values == [] then [] else [Found(values[0])] + Slots(values[1..])
  }

  lemma {:induction false} ArgsInOrder<V>(env: Env<V>, functions: Functions, args: seq<Expr>, values: seq<V>)
    requires |values| == |args|
    requires forall k :: 0 <= k < |args| ==> Direct(env, functions, args[k]) == Ok(Found(values[k]))
    ensures DirectArgs(env, functions, args) == Ok(Slots(values))
    decreases |args|
  {
    if args != [] {
      ArgsInOrder(env, functions, args[1..], values[1..]);
    }
  }

  lemma {:induction false} AllNeeded<V>(values: seq<V>)
    ensures Need(Slots(values)) == Ok(values)
  {
    if values != [] {
      var n := |values| - 1;
      AllNeeded(values[..n]);
      SlotsSnoc(values[..n], values[n]);
      assert values[..n] + [values[n]] == values;
      Snoc(Slots(values[..n]), Found(values[n]));
    }
  }

  lemma {:induction false} SlotsSnoc<V>(values: seq<V>, v: V)
    ensures Slots(values + [v]) == Slots(values) + [Found(v)]
  {
    if values == [] {
      assert values + [v] == [v] && [v][1..] == [];
    } else {
      SlotsSnoc(values[1..], v);
      assert (values + [v])[1..] == values[1..] + [v];
    }
  }

  /** Parsing what was written and running the result on an empty stack gives the meaning of the tree, and
      leaves the stacks as they were. */
  lemma ParseThenRun<V>(env: Env<V>, functions: Functions, e: Expr, names: seq<string>)
    requires WellNamed(functions, e) && Sound(functions, e) && WordsApart(e)
    ensures Parse(functions, Tokens(e)).Ok?
    ensures Evaluate(env, Machine([], names), Parse(functions, Tokens(e)).value) ==
              With(Machine([], names), Meaning(env, functions, e))
  {
    hide Parse, Tokens;
    ParserIsPostfix(functions, e);
    ExecPostfix(env, functions, e, Machine([], names));
  }
}
