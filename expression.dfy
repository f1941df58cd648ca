/**
 * What a conversion means: expression trees over the calculator's tokens,
 * with their fully parenthesised infix tokens, their postfix tokens and
 * their value by direct evaluation. The shunting-yard conversion
 * (main.go:73-121) turns the first into the second, and the stack machine
 * (main.go:159-200) computes the third from the second.
 */
module Expression {
  import opened Classifier
  import opened Converter
  import opened Evaluator

  /** A binary expression over number and identifier tokens. */
  datatype Expr = Leaf(token: string) | Bin(op: string, left: Expr, right: Expr)

  /** Every leaf is a number or an identifier, every inner node one of the five operators. */
  predicate WellBuilt(e: Expr) {
    match e
    case Leaf(t) => IsOperand(t)
    case Bin(o, l, r) => IsOperator(o) && WellBuilt(l) && WellBuilt(r)
  }

  /** The tokens of `e` with every operation in parentheses. */
  function Infix(e: Expr): seq<string> {
    match e
    case Leaf(t) => [t]
    case Bin(o, l, r) => ["("] + Infix(l) + [o] + Infix(r) + [")"]
  }

  /** The tokens of `e` with each operator after its two operands. */
  function Postfix(e: Expr): seq<string> {
    match e
    case Leaf(t) => [t]
    case Bin(o, l, r) => Postfix(l) + Postfix(r) + [o]
  }

  /** Direct evaluation: the left operand, then the right one, then the operation. */
  function Value(e: Expr, vars: Store): Result<int> {
    match e
    case Leaf(t) => ResolveValue(t, vars)
    case Bin(o, l, r) =>
      match Value(l, vars)
      case Err(x) => Err(x)
      case Ok(a) =>
        match Value(r, vars)
        case Err(x) => Err(x)
        case Ok(b) => ApplyOp(o, a, b)
  }

  // ----- conversion -----

  /**
   * The loop of main.go:73-111 passes over a parenthesised expression in
   * one go, whatever lies on the stack: the expression's postfix form is
   * appended to the output and the stack is as before.
   */
  lemma {:induction false} InfixScan(st: State, e: Expr, rest: seq<string>)
    requires WellBuilt(e)
    ensures Scan(st, Infix(e) + rest) == Scan(State(st.output + Postfix(e), st.stack), rest)
    decreases e
  {
    match e
    case Leaf(t) =>
      OperandCons(st, t, rest);
    case Bin(o, l, r) =>
      var out, stack := st.output, st.stack;
      var pl, pr := Postfix(l), Postfix(r);
      var afterR := [")"] + rest;
      var afterO := Infix(r) + afterR;
      var afterL := [o] + afterO;
      calc {
        Scan(st, Infix(e) + rest);
        { InfixSplit(o, l, r, rest); }
        Scan(st, ["("] + (Infix(l) + afterL));
        { OpenCons(st, Infix(l) + afterL); }
        Scan(State(out, stack + ["("]), Infix(l) + afterL);
        { InfixScan(State(out, stack + ["("]), l, afterL); }
        Scan(State(out + pl, stack + ["("]), afterL);
        { PushAfterOpen(out + pl, stack, o, afterO); }
        Scan(State(out + pl, stack + ["(", o]), afterO);
        { InfixScan(State(out + pl, stack + ["(", o]), r, afterR); }
        Scan(State(out + pl + pr, stack + ["(", o]), afterR);
        { CloseCons(out + pl + pr, stack, o, rest); }
        Scan(State(out + pl + pr + [o], stack), rest);
        { assert out + pl + pr + [o] == out + Postfix(e); }
        Scan(State(out + Postfix(e), stack), rest);
      }
  }

  lemma InfixSplit(o: string, l: Expr, r: Expr, rest: seq<string>)
    ensures Infix(Bin(o, l, r)) + rest == ["("] + (Infix(l) + ([o] + (Infix(r) + ([")"] + rest))))
  {
  }

  /** The fully parenthesised tokens of an expression convert to its postfix tokens. */
  lemma ConvertInfix(e: Expr)
    requires WellBuilt(e)
    ensures Convert(Infix(e)) == Ok(Postfix(e))
  {
    InfixScan(State([], []), e, []);
    assert Infix(e) + [] == Infix(e) && [] + Postfix(e) == Postfix(e);
  }

  // ----- evaluation -----

  /** Running the postfix form of `e` pushes its value, or fails with the first error of direct evaluation. */
  lemma {:induction false} EvalFromPostfix(stack: seq<int>, e: Expr, vars: Store)
    requires WellBuilt(e)
    ensures EvalFrom(stack, Postfix(e), vars) ==
      match Value(e, vars)
      case Err(x) => Err(x)
      case Ok(v) => Ok(stack + [v])
    decreases e
  {
    match e
    case Leaf(t) =>
      assert [t][1..] == [];
    case Bin(o, l, r) =>
      EvalFromAppend(stack, Postfix(l) + Postfix(r), [o], vars);
      EvalFromAppend(stack, Postfix(l), Postfix(r), vars);
      EvalFromPostfix(stack, l, vars);
      match Value(l, vars)
      case Err(_) =>
      case Ok(a) =>
        EvalFromPostfix(stack + [a], r, vars);
        match Value(r, vars)
        case Err(_) =>
        case Ok(b) =>
          SymbolsAreNotOperands(o);
          ApplyTop(stack, a, b, o, vars);
  }

  /** `evaluatePostfix` on the postfix form of an expression is direct evaluation. */
  lemma EvalOfPostfix(e: Expr, vars: Store)
    requires WellBuilt(e)
    ensures Eval(Postfix(e), vars) == Value(e, vars)
  {
    EvalFromPostfix([], e, vars);
    if Value(e, vars).Ok? {
      assert [] + [Value(e, vars).value] == [Value(e, vars).value];
    }
  }

  /**
   * Converting the fully parenthesised tokens of an expression and
   * evaluating the output gives the expression's direct value, errors
   * included.
   */
  lemma ConvertThenEvaluate(e: Expr, vars: Store)
    requires WellBuilt(e)
    ensures Convert(Infix(e)).Ok?
    ensures Eval(Convert(Infix(e)).value, vars) == Value(e, vars)
  {
    ConvertInfix(e);
    EvalOfPostfix(e, vars);
  }

  // ----- grouping without full parentheses -----

  /**
   * Without parentheses, `a o1 b o2 c` groups as `(a o1 b) o2 c` exactly
   * when `o1` is popped before `o2` is pushed (main.go:99-100), and as
   * `a o1 (b o2 c)` otherwise.
   */
  lemma TwoOperatorsGrouping(a: string, o1: string, b: string, o2: string, c: string)
    requires IsOperand(a) && IsOperand(b) && IsOperand(c)
    requires IsOperator(o1) && IsOperator(o2)
    ensures Convert([a, o1, b, o2, c]) ==
      Ok(Postfix(if PopsBefore(o1, o2) then Bin(o2, Bin(o1, Leaf(a), Leaf(b)), Leaf(c))
                 else Bin(o1, Leaf(a), Bin(o2, Leaf(b), Leaf(c)))))
  {
    TwoOperators(a, o1, b, o2, c);
    if PopsBefore(o1, o2) {
      assert Postfix(Bin(o1, Leaf(a), Leaf(b))) == [a] + [b] + [o1] == [a, b, o1];
      assert [a, b, o1] + [c] + [o2] == [a, b, o1, c, o2];
    } else {
      assert Postfix(Bin(o2, Leaf(b), Leaf(c))) == [b] + [c] + [o2] == [b, c, o2];
      assert [a] + [b, c, o2] + [o1] == [a, b, c, o2, o1];
    }
  }

  /** `(a o1 b) o2 c`: the parentheses group `a o1 b` whatever the operators. */
  lemma ParenthesisedLeft(a: string, o1: string, b: string, o2: string, c: string)
    requires IsOperand(a) && IsOperand(b) && IsOperand(c)
    requires IsOperator(o1) && IsOperator(o2)
    ensures Convert(["(", a, o1, b, ")", o2, c]) == Ok([a, b, o1, c, o2])
    ensures [a, b, o1, c, o2] == Postfix(Bin(o2, Bin(o1, Leaf(a), Leaf(b)), Leaf(c)))
  {
    LeftGroupScan(a, o1, b, o2, c);
    FlushLastOperator([a, b, o1, c], o2);
    assert [a, b, o1, c] + [o2] == [a, b, o1, c, o2];
    assert Postfix(Bin(o1, Leaf(a), Leaf(b))) == [a, b, o1];
  }

  lemma LeftGroupScan(a: string, o1: string, b: string, o2: string, c: string)
    requires IsOperand(a) && IsOperand(b) && IsOperand(c)
    requires IsOperator(o1) && IsOperator(o2)
    ensures Scan(State([], []), ["(", a, o1, b, ")", o2, c]) == Ok(State([a, b, o1, c], [o2]))
  {
    var e := Bin(o1, Leaf(a), Leaf(b));
    calc {
      Scan(State([], []), ["(", a, o1, b, ")", o2, c]);
      { assert ["(", a, o1, b, ")", o2, c] == Infix(e) + [o2, c]; }
      Scan(State([], []), Infix(e) + [o2, c]);
      { InfixScan(State([], []), e, [o2, c]); assert [] + Postfix(e) == [a, b, o1]; }
      Scan(State([a, b, o1], []), [o2, c]);
      { OperatorThenOperand([a, b, o1], o2, c); assert [a, b, o1] + [c] == [a, b, o1, c]; }
      Ok(State([a, b, o1, c], [o2]));
    }
  }

  /** `o c` on an empty stack: `o` is pushed and `c` output. */
  lemma OperatorThenOperand(out: seq<string>, o: string, c: string)
    requires IsOperator(o) && IsOperand(c)
    ensures Scan(State(out, []), [o, c]) == Ok(State(out + [c], [o]))
  {
    assert [o, c] == [o] + [c] && [] + [o] == [o];
    OperatorCons(State(out, []), o, [c]);
    assert [c] == [c] + [];
    OperandCons(State(out, [o]), c, []);
  }

  /** `a o1 (b o2 c)`: the parentheses group `b o2 c` whatever the operators. */
  lemma ParenthesisedRight(a: string, o1: string, b: string, o2: string, c: string)
    requires IsOperand(a) && IsOperand(b) && IsOperand(c)
    requires IsOperator(o1) && IsOperator(o2)
    ensures Convert([a, o1, "(", b, o2, c, ")"]) == Ok([a, b, c, o2, o1])
    ensures [a, b, c, o2, o1] == Postfix(Bin(o1, Leaf(a), Bin(o2, Leaf(b), Leaf(c))))
  {
    RightGroupScan(a, o1, b, o2, c);
    FlushLastOperator([a, b, c, o2], o1);
    assert [a, b, c, o2] + [o1] == [a, b, c, o2, o1];
    assert Postfix(Bin(o2, Leaf(b), Leaf(c))) == [b, c, o2];
  }

  lemma RightGroupScan(a: string, o1: string, b: string, o2: string, c: string)
    requires IsOperand(a) && IsOperand(b) && IsOperand(c)
    requires IsOperator(o1) && IsOperator(o2)
    ensures Scan(State([], []), [a, o1, "(", b, o2, c, ")"]) == Ok(State([a, b, c, o2], [o1]))
  {
    var e := Bin(o2, Leaf(b), Leaf(c));
    calc {
      Scan(State([], []), [a, o1, "(", b, o2, c, ")"]);
      { assert [a, o1, "(", b, o2, c, ")"] == [a, o1] + (Infix(e) + []); }
      Scan(State([], []), [a, o1] + (Infix(e) + []));
      { OperandThenOperator(a, o1, Infix(e) + []); }
      Scan(State([a], [o1]), Infix(e) + []);
      { InfixScan(State([a], [o1]), e, []); assert [a] + Postfix(e) == [a, b, c, o2]; }
      Scan(State([a, b, c, o2], [o1]), []);
    }
  }

  /** `a o` at the start: `a` is output and `o` pushed. */
  lemma OperandThenOperator(a: string, o: string, rest: seq<string>)
    requires IsOperand(a) && IsOperator(o)
    ensures Scan(State([], []), [a, o] + rest) == Scan(State([a], [o]), rest)
  {
    assert [a, o] + rest == [a] + ([o] + rest) && [] + [a] == [a];
    OperandCons(State([], []), a, [o] + rest);
    assert [] + [o] == [o];
    OperatorCons(State([a], []), o, rest);
  }

  /** `(1 + 2) * 3` is 9. */
  lemma LeftGroupingExample()
    ensures Convert(["(", "1", "+", "2", ")", "*", "3"]) == Ok(["1", "2", "+", "3", "*"])
    ensures Eval(["1", "2", "+", "3", "*"], map[]) == Ok(9)
  {
    assert Atoi("1") == Some(1) && Atoi("2") == Some(2) && Atoi("3") == Some(3);
    ParenthesisedLeft("1", "+", "2", "*", "3");
    var e := Bin("+", Leaf("1"), Leaf("2"));
    assert Value(e, map[]) == Ok(3);
    assert Value(Bin("*", e, Leaf("3")), map[]) == Ok(9);
    EvalOfPostfix(Bin("*", e, Leaf("3")), map[]);
  }

  /** `2 * (3 + 4)` is 14. */
  lemma RightGroupingExample()
    ensures Convert(["2", "*", "(", "3", "+", "4", ")"]) == Ok(["2", "3", "4", "+", "*"])
    ensures Eval(["2", "3", "4", "+", "*"], map[]) == Ok(14)
  {
    assert Atoi("2") == Some(2) && Atoi("3") == Some(3) && Atoi("4") == Some(4);
    ParenthesisedRight("2", "*", "3", "+", "4");
    var e := Bin("+", Leaf("3"), Leaf("4"));
    assert Value(e, map[]) == Ok(7);
    assert Value(Bin("*", Leaf("2"), e), map[]) == Ok(14);
    EvalOfPostfix(Bin("*", Leaf("2"), e), map[]);
  }
}
