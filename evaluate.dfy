/**
 * `resolveValue` (main.go:44-56) and `evaluatePostfix` (main.go:159-200):
 * a stack machine over postfix tokens with Go's 64-bit `int` arithmetic.
 * The variable store, a global map in the program, is a parameter here.
 */
module Evaluator {
  import opened Classifier

  /** The variable store: identifier to value. */
  type Store = map<string, int>

  // ----- Go's integer arithmetic -----

  function Abs(x: int): nat {
    if x < 0 then -x else x
  }

  /**
   * Go's `/` on integers: the quotient truncated toward zero, so that
   * `a == q * b + r` with `|r| < |b|` and `r` zero or of the sign of `a`.
   */
  function TruncDiv(a: int, b: int): (q: int)
    requires b != 0
    ensures Abs(a - q * b) < Abs(b)
    ensures a - q * b == 0 || (a - q * b < 0 <==> a < 0)
  {
    var m := Abs(a) / Abs(b);
    var q := if (a < 0) == (b < 0) then m else -m;
    TruncRemainder(a, b, q);
    q
  }

  /** The remainder of truncated division is that of the magnitudes, with the sign of `a`. */
  lemma TruncRemainder(a: int, b: int, q: int)
    requires b != 0 && q == (if (a < 0) == (b < 0) then Abs(a) / Abs(b) else -(Abs(a) / Abs(b)))
    ensures a - q * b == (if a < 0 then -(Abs(a) % Abs(b)) else Abs(a) % Abs(b))
  {
    var m, n, rem := Abs(a) / Abs(b), Abs(b), Abs(a) % Abs(b);
    assert Abs(a) == m * n + rem;
    assert q * b == (if a < 0 then -(m * n) else m * n) by {
      if b < 0 {
        assert b == -n;
        if a < 0 { assert q == m; } else { assert q == -m; }
      } else {
        assert b == n;
        if a < 0 { assert q == -m; } else { assert q == m; }
      }
    }
  }

  /**
   * `int(math.Pow(float64(a), float64(b)))`. The floating-point power and
   * the conversion back are not modelled: the table is left unspecified and
   * the model relies only on the result being some `int`.
   */
  const PowTable: (int, int) -> int

  function PowApprox(a: int, b: int): (r: int)
    ensures InInt64(r)
  {
    Wrap64(PowTable(a, b))
  }

  /** The `switch` of main.go:176-192 on two popped operands `a` (deeper) and `b` (top). */
  function ApplyOp(op: string, a: int, b: int): (r: Result<int>)
    ensures r.Ok? ==> InInt64(r.value)
    ensures r.Err? ==> (r.error == DivisionByZero <==> op == "/")
    ensures r.Err? <==> !IsOperator(op) || (op == "/" && b == 0)
  {
    match op
    case "+" => Ok(Wrap64(a + b))
    case "-" => Ok(Wrap64(a - b))
    case "*" => Ok(Wrap64(a * b))
    case "/" => if b == 0 then Err(DivisionByZero) else Ok(Wrap64(TruncDiv(a, b)))
    case "^" => Ok(PowApprox(a, b))
    case _ => Err(InvalidExpression)
  }

  /**
   * On `int` operands, `+ - *` give the exact result whenever it is an
   * `int`; `/` gives the quotient truncated toward zero, except that
   * `MinInt / -1` wraps round to `MinInt`; `^` gives some `int`.
   */
  lemma ApplyOpExact(op: string, a: int, b: int)
    requires InInt64(a) && InInt64(b)
    ensures op == "+" && InInt64(a + b) ==> ApplyOp(op, a, b) == Ok(a + b)
    ensures op == "-" && InInt64(a - b) ==> ApplyOp(op, a, b) == Ok(a - b)
    ensures op == "*" && InInt64(a * b) ==> ApplyOp(op, a, b) == Ok(a * b)
    ensures op == "/" && b != 0 && !(a == MinInt && b == -1) ==>
      && ApplyOp(op, a, b).Ok?
      && Abs(a - ApplyOp(op, a, b).value * b) < Abs(b)
      && (a - ApplyOp(op, a, b).value * b == 0 || (a - ApplyOp(op, a, b).value * b < 0 <==> a < 0))
    ensures op == "/" && a == MinInt && b == -1 ==> ApplyOp(op, a, b) == Ok(MinInt)
  {
    if op == "/" && b != 0 {
      if a == MinInt && b == -1 {
        assert TruncDiv(a, b) == -MinInt;
      } else {
        TruncDivInRange(a, b);
      }
    }
  }

  /** The truncated quotient of two `int`s is an `int`, unless it is `MinInt / -1`. */
  lemma TruncDivInRange(a: int, b: int)
    requires InInt64(a) && InInt64(b) && b != 0 && !(a == MinInt && b == -1)
    ensures InInt64(TruncDiv(a, b))
  {
    var m := Abs(a) / Abs(b);
    QuotientBound(Abs(a), Abs(b));
    assert TruncDiv(a, b) == m || TruncDiv(a, b) == -m;
  }

  /** Dividing a magnitude of at most 2^63 by `n` gives at most 2^63, and less when `n > 1`. */
  lemma QuotientBound(x: nat, n: int)
    requires 1 <= n && x <= -MinInt
    ensures x / n <= x
    ensures n >= 2 ==> x / n <= MaxInt
  {
    var m := x / n;
    assert m * n <= x;
    MulMono(m, 1, n);
    if n >= 2 {
      MulMono(m, 2, n);
    }
  }

  lemma MulMono(m: nat, k: int, n: int)
    requires 1 <= k <= n
    ensures m * k <= m * n
  {
    var d: nat := n - k;
    assert m * n == m * k + m * d;
  }

  /** `resolveValue`: a number's value, a bound identifier's value, or an error. */
  function ResolveValue(token: string, vars: Store): (r: Result<int>)
    ensures r.Ok? <==> IsNumber(token) || (token in vars && IsValidIdentifier(token))
    ensures r.Ok? && IsNumber(token) ==> Atoi(token) == Some(r.value)
    ensures r.Ok? && !IsNumber(token) ==> r.value == vars[token]
    ensures r.Err? ==> (r.error == UnknownVariable <==> IsValidIdentifier(token))
    ensures r.Err? ==> r.error == UnknownVariable || r.error == InvalidIdentifier
  {
    if IsNumber(token) then Ok(Atoi(token).value)
    else if IsValidIdentifier(token) then
      if token in vars then Ok(vars[token]) else Err(UnknownVariable)
    else Err(InvalidIdentifier)
  }

  // ----- the stack machine -----

  /** One iteration of the loop of main.go:161-195 on the value stack (top last). */
  function EvalStep(stack: seq<int>, token: string, vars: Store): Result<seq<int>> {
    if IsNumber(token) || IsValidIdentifier(token) then
      match ResolveValue(token, vars)
      case Err(e) => Err(e)
      case Ok(v) => Ok(stack + [v])
    else if |stack| < 2 then Err(InvalidExpression)
    else
      match ApplyOp(token, stack[|stack| - 2], stack[|stack| - 1])
      case Err(e) => Err(e)
      case Ok(v) => Ok(stack[..|stack| - 2] + [v])
  }

  /** The loop of main.go:161-195 from value stack `stack` over `tokens`. */
  function EvalFrom(stack: seq<int>, tokens: seq<string>, vars: Store): Result<seq<int>>
    decreases |tokens|
  {
    if tokens == [] then Ok(stack)
    else
      match EvalStep(stack, tokens[0], vars)
      case Err(e) => Err(e)
      case Ok(stack') => EvalFrom(stack', tokens[1..], vars)
  }

  /** What `evaluatePostfix` returns: exactly one value must be left (main.go:196-199). */
  function Eval(postfix: seq<string>, vars: Store): Result<int> {
    match EvalFrom([], postfix, vars)
    case Err(e) => Err(e)
    case Ok(stack) => if |stack| != 1 then Err(InvalidExpression) else Ok(stack[0])
  }

  /** main.go:159-200. */
  method EvaluatePostfix(postfix: seq<string>, vars: Store) returns (r: Result<int>)
    ensures r == Eval(postfix, vars)
  {
    var stack: seq<int> := [];
    var i := 0;
    while i < |postfix|
      invariant 0 <= i <= |postfix|
      invariant EvalFrom(stack, postfix[i..], vars) == EvalFrom([], postfix, vars)
    {
      var token := postfix[i];
      assert postfix[i..][1..] == postfix[i + 1..];
      ghost var before := stack;
      if IsNumber(token) || IsValidIdentifier(token) {
        var val := ResolveValue(token, vars);
        if val.Err? {
          return Err(val.error);
        }
        stack := stack + [val.value];
      } else {
        if |stack| < 2 {
          return Err(InvalidExpression);
        }
        var b := stack[|stack| - 1];
        var a := stack[|stack| - 2];
        stack := stack[..|stack| - 2];
        var res: int;
        if token == "+" {
          res := Wrap64(a + b);
        } else if token == "-" {
          res := Wrap64(a - b);
        } else if token == "*" {
          res := Wrap64(a * b);
        } else if token == "/" {
          if b == 0 {
            assert ApplyOp(token, a, b) == Err(DivisionByZero);
            return Err(DivisionByZero);
          }
          res := Wrap64(TruncDiv(a, b));
        } else if token == "^" {
          res := PowApprox(a, b);
        } else {
          assert ApplyOp(token, a, b) == Err(InvalidExpression);
          return Err(InvalidExpression);
        }
        assert ApplyOp(token, a, b) == Ok(res);
        stack := stack + [res];
      }
      assert EvalStep(before, token, vars) == Ok(stack);
      i := i + 1;
    }
    if |stack| != 1 {
      return Err(InvalidExpression);
    }
    return Ok(stack[0]);
  }

  // ----- reference definitions: when evaluation succeeds -----

  /** How a token changes the stack height: operands push one value, anything else pops two and pushes one. */
  function Delta(token: string): int {
    if IsOperand(token) then 1 else -1
  }

  /**
   * From a stack of height `h`, every non-operand of `ts` finds two values
   * to pop. After each token at least one value is on the stack.
   */
  predicate Fits(h: int, ts: seq<string>)
    decreases |ts|
  {
    ts == [] || (h + Delta(ts[0]) >= 1 && (IsOperand(ts[0]) || h >= 2) && Fits(h + Delta(ts[0]), ts[1..]))
  }

  /** Height of the stack after `ts`, from empty. */
  function Height(ts: seq<string>): int
    decreases |ts|
  {
    if ts == [] then 0 else Delta(ts[0]) + Height(ts[1..])
  }

  /** Every number can be read, and every identifier is bound in `vars`. */
  predicate AllResolvable(ts: seq<string>, vars: Store) {
    forall i :: 0 <= i < |ts| && IsOperand(ts[i]) ==> (IsNumber(ts[i]) || ts[i] in vars)
  }

  /** Every token that is not an operand is one of the five operators. */
  predicate AllKnownOps(ts: seq<string>) {
    forall i :: 0 <= i < |ts| && !IsOperand(ts[i]) ==> IsOperator(ts[i])
  }

  predicate StoreInRange(vars: Store) {
    forall x :: x in vars ==> InInt64(vars[x])
  }

  predicate StackInRange(stack: seq<int>) {
    forall i :: 0 <= i < |stack| ==> InInt64(stack[i])
  }

  /** A token that names a variable the store does not hold. */
  predicate Unbound(t: string, vars: Store) {
    IsOperand(t) && !IsNumber(t) && t !in vars
  }

  /** Postfix a stack machine can run from empty to a single value. */
  predicate WellFormed(ts: seq<string>) {
    Fits(0, ts) && Height(ts) == 1 && AllKnownOps(ts)
  }

  lemma SplitHead(ts: seq<string>, vars: Store)
    requires ts != []
    ensures AllResolvable(ts, vars) <==> !Unbound(ts[0], vars) && AllResolvable(ts[1..], vars)
    ensures AllKnownOps(ts) <==> (IsOperand(ts[0]) || IsOperator(ts[0])) && AllKnownOps(ts[1..])
    ensures "/" in ts <==> ts[0] == "/" || "/" in ts[1..]
  {
    assert ts == [ts[0]] + ts[1..];
    forall i | 1 <= i < |ts| ensures ts[i] == ts[1..][i - 1] { }
  }

  /** What one token does: the height changes by `Delta`, and each error has its one cause. */
  lemma EvalStepSpec(stack: seq<int>, t: string, vars: Store)
    ensures var r := EvalStep(stack, t, vars);
      && (r.Ok? ==> |r.value| == |stack| + Delta(t) && (IsOperand(t) || |stack| >= 2))
      && (r.Ok? ==> !Unbound(t, vars) && (IsOperand(t) || IsOperator(t)))
      && (r.Err? ==> r.error in {InvalidExpression, DivisionByZero, UnknownVariable})
      && (r.Err? && r.error == DivisionByZero ==> t == "/")
      && (r.Err? && r.error == UnknownVariable ==> Unbound(t, vars))
      && (r.Err? && r.error == InvalidExpression ==> !IsOperand(t) && (|stack| < 2 || !IsOperator(t)))
      && ((IsOperand(t) && !Unbound(t, vars)) || (|stack| >= 2 && IsOperator(t) && t != "/") ==> r.Ok?)
      && (StoreInRange(vars) && StackInRange(stack) && r.Ok? ==> StackInRange(r.value))
  {
    var r := EvalStep(stack, t, vars);
    if IsOperand(t) {
      if r.Ok? && StoreInRange(vars) && StackInRange(stack) {
        assert r.value == stack + [r.value[|stack|]];
      }
    } else if |stack| >= 2 {
      if r.Ok? && StoreInRange(vars) && StackInRange(stack) {
        var rest := stack[..|stack| - 2];
        assert r.value == rest + [r.value[|rest|]];
        assert StackInRange(rest) by {
          forall i | 0 <= i < |rest| ensures InInt64(rest[i]) {
            assert rest[i] == stack[i];
          }
        }
      }
    }
  }

  /** A run from height `|stack|` succeeds only on tokens that fit, resolve and are known; without `/` then always. */
  lemma {:induction false} EvalFromOk(stack: seq<int>, ts: seq<string>, vars: Store)
    ensures var r := EvalFrom(stack, ts, vars);
      && (r.Ok? ==> Fits(|stack|, ts) && AllResolvable(ts, vars) && AllKnownOps(ts))
      && (r.Ok? ==> |r.value| == |stack| + Height(ts))
      && (Fits(|stack|, ts) && AllResolvable(ts, vars) && AllKnownOps(ts) && "/" !in ts ==> r.Ok?)
      && (StoreInRange(vars) && StackInRange(stack) && r.Ok? ==> StackInRange(r.value))
    decreases |ts|
  {
    if ts != [] {
      SplitHead(ts, vars);
      EvalStepSpec(stack, ts[0], vars);
      var r := EvalStep(stack, ts[0], vars);
      if r.Ok? {
        EvalFromOk(r.value, ts[1..], vars);
      }
    }
  }

  /** Each error of a run has its cause among the tokens; "Invalid identifier" never arises. */
  lemma {:induction false} EvalFromErr(stack: seq<int>, ts: seq<string>, vars: Store)
    ensures var r := EvalFrom(stack, ts, vars);
      && (r.Err? ==> r.error in {InvalidExpression, DivisionByZero, UnknownVariable})
      && (r.Err? && r.error == DivisionByZero ==> "/" in ts)
      && (r.Err? && r.error == UnknownVariable ==> !AllResolvable(ts, vars))
      && (r.Err? && r.error == InvalidExpression ==> !Fits(|stack|, ts) || !AllKnownOps(ts))
    decreases |ts|
  {
    if ts != [] {
      SplitHead(ts, vars);
      EvalStepSpec(stack, ts[0], vars);
      var r := EvalStep(stack, ts[0], vars);
      if r.Ok? {
        EvalFromErr(r.value, ts[1..], vars);
      }
    }
  }

  /**
   * `evaluatePostfix` succeeds only on well-formed postfix whose identifiers
   * are all bound, and always does so when there is no `/`; "Division by
   * zero" needs a `/`, "Unknown variable" an unbound identifier, "Invalid
   * expression" postfix that is not well formed; and the value is an `int`.
   */
  lemma EvalSpec(ts: seq<string>, vars: Store)
    ensures Eval(ts, vars).Ok? ==> WellFormed(ts) && AllResolvable(ts, vars)
    ensures WellFormed(ts) && AllResolvable(ts, vars) && "/" !in ts ==> Eval(ts, vars).Ok?
    ensures Eval(ts, vars).Err? ==> Eval(ts, vars).error in {InvalidExpression, DivisionByZero, UnknownVariable}
    ensures Eval(ts, vars).Err? && Eval(ts, vars).error == DivisionByZero ==> "/" in ts
    ensures Eval(ts, vars).Err? && Eval(ts, vars).error == UnknownVariable ==> !AllResolvable(ts, vars)
    ensures Eval(ts, vars).Err? && Eval(ts, vars).error == InvalidExpression ==> !WellFormed(ts)
    ensures StoreInRange(vars) && Eval(ts, vars).Ok? ==> InInt64(Eval(ts, vars).value)
  {
    EvalFromOk([], ts, vars);
    EvalFromErr([], ts, vars);
  }

  // ----- running postfix piece by piece -----

  /** Running `p + q` is running `p`, then `q` from where `p` left the stack. */
  lemma {:induction false} EvalFromAppend(stack: seq<int>, p: seq<string>, q: seq<string>, vars: Store)
    ensures EvalFrom(stack, p + q, vars) ==
      match EvalFrom(stack, p, vars)
      case Err(e) => Err(e)
      case Ok(s) => EvalFrom(s, q, vars)
    decreases |p|
  {
    if p == [] {
      assert [] + q == q;
    } else {
      assert (p + q)[0] == p[0] && (p + q)[1..] == p[1..] + q;
      match EvalStep(stack, p[0], vars)
      case Err(_) =>
      case Ok(s) => EvalFromAppend(s, p[1..], q, vars);
    }
  }

  /** A successful run never looks below its starting stack, so values underneath stay put. */
  lemma {:induction false} EvalFromBase(base: seq<int>, stack: seq<int>, ts: seq<string>, vars: Store)
    requires EvalFrom(stack, ts, vars).Ok?
    ensures EvalFrom(base + stack, ts, vars) == Ok(base + EvalFrom(stack, ts, vars).value)
    decreases |ts|
  {
    if ts != [] {
      var t := ts[0];
      var s' := EvalStep(stack, t, vars).value;
      assert EvalStep(base + stack, t, vars) == Ok(base + s') by {
        var bs := base + stack;
        if IsNumber(t) || IsValidIdentifier(t) {
          assert bs + [ResolveValue(t, vars).value] == base + (stack + [ResolveValue(t, vars).value]);
        } else {
          assert |stack| >= 2;
          var v := ApplyOp(t, stack[|stack| - 2], stack[|stack| - 1]).value;
          assert s' == stack[..|stack| - 2] + [v];
          assert bs[|bs| - 2] == stack[|stack| - 2] && bs[|bs| - 1] == stack[|stack| - 1];
          assert bs[..|bs| - 2] + [v] == base + (stack[..|stack| - 2] + [v]);
        }
      }
      EvalFromBase(base, s', ts[1..], vars);
    }
  }

  /** An operator applied to the top two values of the stack. */
  lemma ApplyTop(stack: seq<int>, a: int, b: int, o: string, vars: Store)
    requires !IsOperand(o)
    ensures EvalFrom(stack + [a] + [b], [o], vars) ==
      match ApplyOp(o, a, b)
      case Err(x) => Err(x)
      case Ok(v) => Ok(stack + [v])
  {
    var s := stack + [a] + [b];
    assert s[|s| - 2] == a && s[|s| - 1] == b && s[..|s| - 2] == stack;
    assert [o][1..] == [];
  }

  /**
   * Postfix composes: when `p` and `q` each evaluate to one value, `p q o`
   * applies `o` to them, the value of `p` on the left.
   */
  lemma EvalConcat(p: seq<string>, q: seq<string>, o: string, vars: Store)
    requires Eval(p, vars).Ok? && Eval(q, vars).Ok? && !IsOperand(o)
    ensures Eval(p + q + [o], vars) == ApplyOp(o, Eval(p, vars).value, Eval(q, vars).value)
  {
    var x, y := Eval(p, vars).value, Eval(q, vars).value;
    assert EvalFrom([], p, vars) == Ok([x]) by {
      var sp := EvalFrom([], p, vars).value;
      assert sp == [sp[0]];
    }
    assert EvalFrom([], q, vars) == Ok([y]) by {
      var sq := EvalFrom([], q, vars).value;
      assert sq == [sq[0]];
    }
    EvalFromAppend([], p + q, [o], vars);
    EvalFromAppend([], p, q, vars);
    EvalFromBase([x], [], q, vars);
    assert [x] + [] == [x] && [x] + [y] == [x, y];
    assert [o][1..] == [] && [x, y][..0] == [];
  }

  /** Division truncates toward zero, for either sign of either operand. */
  lemma DivisionExamples()
    ensures Eval(["7", "2", "/"], map[]) == Ok(3)
    ensures Eval(["-7", "2", "/"], map[]) == Ok(-3)
    ensures Eval(["7", "-2", "/"], map[]) == Ok(-3)
  {
    assert Atoi("7") == Some(7) && Atoi("2") == Some(2) && Atoi("-7") == Some(-7) && Atoi("-2") == Some(-2);
    SymbolsAreNotOperands("/");
  }

  lemma DivisionByZeroExample()
    ensures Eval(["5", "0", "/"], map[]) == Err(DivisionByZero)
  {
    assert Atoi("5") == Some(5) && Atoi("0") == Some(0);
    SymbolsAreNotOperands("/");
  }

  /** A lone operand before an operator (a unary minus) has nothing to pop; two values are one too many. */
  lemma ShapeExamples()
    ensures Eval(["5", "-"], map[]) == Err(InvalidExpression)
    ensures Eval(["1", "2"], map[]) == Err(InvalidExpression)
  {
    assert Atoi("5") == Some(5) && Atoi("1") == Some(1) && Atoi("2") == Some(2);
    SymbolsAreNotOperands("-");
  }

  /** An identifier evaluates to its binding, and fails while it has none. */
  lemma VariableExamples()
    ensures Eval(["x", "1", "+"], map[]) == Err(UnknownVariable)
    ensures Eval(["x", "1", "+"], map["x" := 5]) == Ok(6)
  {
    assert Atoi("1") == Some(1);
    assert !IsNumber("x") && IsValidIdentifier("x");
    SymbolsAreNotOperands("+");
  }

  /** `1 2 - 3 -` is (1 - 2) - 3; `3 * 2 *` finds one value under its first `*`. */
  lemma PostfixExamples()
    ensures Eval(["1", "2", "-", "3", "-"], map[]) == Ok(-4)
    ensures Eval(["3", "*", "2", "*"], map[]) == Err(InvalidExpression)
  {
    assert Atoi("1") == Some(1) && Atoi("2") == Some(2) && Atoi("3") == Some(3);
    SymbolsAreNotOperands("-");
    SymbolsAreNotOperands("*");
  }
}
