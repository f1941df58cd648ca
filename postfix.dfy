/**
 * `infixToPostfix` (main.go:65-122): the shunting-yard conversion of the
 * token list into postfix order, with an operator stack whose top is the
 * last element, as in the Go slice.
 */
module Converter {
  import opened Classifier
  import opened Normalizer
  import opened Tokenizer

  /** The converter's two slices: the postfix output and the operator stack. */
  datatype State = State(output: seq<string>, stack: seq<string>)

  /** main.go:80-88: pop to the output until a `(` is popped; `None` if there is none. */
  function PopToParen(st: State): Option<State>
    decreases |st.stack|
  {
    if st.stack == [] then None
    else
      var top := st.stack[|st.stack| - 1];
      var rest := st.stack[..|st.stack| - 1];
      if top == "(" then Some(State(st.output, rest))
      else PopToParen(State(st.output + [top], rest))
  }

  /** main.go:99-100: whether the stack top is popped before `token` is pushed. */
  predicate PopsBefore(top: string, token: string) {
    Precedence(top) > Precedence(token)
    || (Precedence(top) == Precedence(token) && !IsRightAssociative(token))
  }

  /** main.go:97-106: pop while the top binds at least as tightly as `token`. */
  function PopOperators(st: State, token: string): State
    decreases |st.stack|
  {
    if st.stack == [] then st
    else
      var top := st.stack[|st.stack| - 1];
      if PopsBefore(top, token) then PopOperators(State(st.output + [top], st.stack[..|st.stack| - 1]), token)
      else st
  }

  /** One iteration of the loop of main.go:73-111. */
  function Step(st: State, token: string): Result<State> {
    if IsNumber(token) || IsValidIdentifier(token) then Ok(State(st.output + [token], st.stack))
    else if token == "(" then Ok(State(st.output, st.stack + [token]))
    else if token == ")" then
      match PopToParen(st)
      case None => Err(InvalidExpression)
      case Some(st') => Ok(st')
    else if IsOperator(token) then
      var st' := PopOperators(st, token);
      Ok(State(st'.output, st'.stack + [token]))
    else Err(InvalidExpression)
  }

  /** The loop of main.go:73-111 from state `st` over `tokens`. */
  function Scan(st: State, tokens: seq<string>): Result<State>
    decreases |tokens|
  {
    if tokens == [] then Ok(st)
    else
      match Step(st, tokens[0])
      case Err(e) => Err(e)
      case Ok(st') => Scan(st', tokens[1..])
  }

  /** main.go:113-120: move the rest of the stack to the output; a parenthesis left there fails. */
  function Flush(st: State): Result<seq<string>>
    decreases |st.stack|
  {
    if st.stack == [] then Ok(st.output)
    else
      var top := st.stack[|st.stack| - 1];
      if top == "(" || top == ")" then Err(InvalidExpression)
      else Flush(State(st.output + [top], st.stack[..|st.stack| - 1]))
  }

  /** What the conversion of main.go:70-121 returns for a token list. */
  function Convert(tokens: seq<string>): Result<seq<string>> {
    match Scan(State([], []), tokens)
    case Err(e) => Err(e)
    case Ok(st) => Flush(st)
  }

  /** main.go:70-121, the shunting-yard loops over the tokens. */
  method ConvertTokens(tokens: seq<string>) returns (r: Result<seq<string>>)
    ensures r == Convert(tokens)
  {
    var output: seq<string> := [];
    var stack: seq<string> := [];
    var i := 0;
    while i < |tokens|
      invariant 0 <= i <= |tokens|
      invariant Scan(State(output, stack), tokens[i..]) == Scan(State([], []), tokens)
    {
      var token := tokens[i];
      assert tokens[i..][1..] == tokens[i + 1..];
      if IsNumber(token) || IsValidIdentifier(token) {
        output := output + [token];
      } else if token == "(" {
        stack := stack + [token];
      } else if token == ")" {
        var foundLeft := false;
        ghost var spec := PopToParen(State(output, stack));
        while |stack| > 0
          invariant PopToParen(State(output, stack)) == spec
          decreases |stack|
        {
          var top := stack[|stack| - 1];
          stack := stack[..|stack| - 1];
          if top == "(" {
            foundLeft := true;
            break;
          }
          output := output + [top];
        }
        assert foundLeft <==> spec.Some?;
        if !foundLeft {
          return Err(InvalidExpression);
        }
        assert spec == Some(State(output, stack));
      } else if token == "+" || token == "-" || token == "*" || token == "/" || token == "^" {
        // The `**` / `//` test of main.go:94 cannot fire on a one-character
        // token (see RepeatedOperatorTestIsDead) and is not repeated here.
        ghost var spec := PopOperators(State(output, stack), token);
        while |stack| > 0
          invariant PopOperators(State(output, stack), token) == spec
          decreases |stack|
        {
          var top := stack[|stack| - 1];
          if Precedence(top) > Precedence(token)
            || (Precedence(top) == Precedence(token) && !IsRightAssociative(token))
          {
            output := output + [top];
            stack := stack[..|stack| - 1];
          } else {
            break;
          }
        }
        stack := stack + [token];
      } else {
        return Err(InvalidExpression);
      }
      i := i + 1;
    }
    ghost var spec := Flush(State(output, stack));
    assert spec == Convert(tokens);
    while |stack| > 0
      invariant Flush(State(output, stack)) == spec
      decreases |stack|
    {
      var top := stack[|stack| - 1];
      stack := stack[..|stack| - 1];
      if top == "(" || top == ")" {
        return Err(InvalidExpression);
      }
      output := output + [top];
    }
    return Ok(output);
  }

  /** main.go:65-122: normalise, tokenise, then convert. */
  method InfixToPostfix(expr: string) returns (r: Result<seq<string>>)
    ensures r == Convert(Tokenize(Normalized(expr)))
  {
    var normalized := NormalizeOperators(expr);
    var tokens := Tokenize(normalized);
    r := ConvertTokens(tokens);
  }

  /** The test of main.go:94 never holds: the token is already a single operator character. */
  lemma RepeatedOperatorTestIsDead(token: string)
    requires token == "+" || token == "-" || token == "*" || token == "/" || token == "^"
    ensures !ContainsPair(token, '*', '*') && !ContainsPair(token, '/', '/')
  {
  }

  // ----- counting what the converter sees -----

  predicate IsParen(t: string) {
    t == "(" || t == ")"
  }

  /** Open minus closing parentheses in `ts`. */
  function Depth(ts: seq<string>): int {
    if ts == [] then 0
    else Depth(ts[..|ts| - 1]) + (if ts[|ts| - 1] == "(" then 1 else if ts[|ts| - 1] == ")" then -1 else 0)
  }

  function CountOpen(ts: seq<string>): nat {
    if ts == [] then 0 else CountOpen(ts[..|ts| - 1]) + (if ts[|ts| - 1] == "(" then 1 else 0)
  }

  /** `ts` without its parentheses. */
  function NonParens(ts: seq<string>): seq<string> {
    if ts == [] then [] else NonParens(ts[..|ts| - 1]) + (if IsParen(ts[|ts| - 1]) then [] else [ts[|ts| - 1]])
  }

  /** The numbers and identifiers of `ts`, in order. */
  function Operands(ts: seq<string>): seq<string> {
    if ts == [] then [] else Operands(ts[..|ts| - 1]) + (if IsOperand(ts[|ts| - 1]) then [ts[|ts| - 1]] else [])
  }

  predicate NoParens(ts: seq<string>) {
    forall i :: 0 <= i < |ts| ==> !IsParen(ts[i])
  }

  predicate IsConvertible(t: string) {
    IsOperand(t) || IsParen(t) || IsOperator(t)
  }

  predicate AllConvertible(ts: seq<string>) {
    forall i :: 0 <= i < |ts| ==> IsConvertible(ts[i])
  }

  /** No prefix closes more parentheses than it opened, and all are closed at the end. */
  predicate Balanced(ts: seq<string>) {
    (forall k :: 0 < k <= |ts| ==> Depth(ts[..k]) >= 0) && Depth(ts) == 0
  }

  /** The operator stack holds only `(` and operators. */
  predicate StackSymbols(stack: seq<string>) {
    forall i :: 0 <= i < |stack| ==> stack[i] == "(" || IsOperator(stack[i])
  }

  /** Appending `t` to `ts` changes each count by what `t` contributes. */
  lemma Append(ts: seq<string>, t: string)
    ensures Depth(ts + [t]) == Depth(ts) + (if t == "(" then 1 else if t == ")" then -1 else 0)
    ensures CountOpen(ts + [t]) == CountOpen(ts) + (if t == "(" then 1 else 0)
    ensures NonParens(ts + [t]) == NonParens(ts) + (if IsParen(t) then [] else [t])
    ensures Operands(ts + [t]) == Operands(ts) + (if IsOperand(t) then [t] else [])
    ensures NoParens(ts) && !IsParen(t) ==> NoParens(ts + [t])
  {
    assert (ts + [t])[..|ts|] == ts;
  }

  /** Taking the top off a stack of `(` and operators. */
  lemma Pop(stack: seq<string>)
    requires stack != [] && StackSymbols(stack)
    ensures StackSymbols(stack[..|stack| - 1])
    ensures !IsOperand(stack[|stack| - 1])
    ensures stack == stack[..|stack| - 1] + [stack[|stack| - 1]]
  {
    SymbolsAreNotOperands(stack[|stack| - 1]);
  }

  /** The tokens still to come out: the output and the non-parentheses on the stack. */
  function Pending(st: State): multiset<string> {
    multiset(st.output) + multiset(NonParens(st.stack))
  }

  /** Moving an operator from the top of the stack to the output keeps what is pending. */
  lemma MoveTop(st: State)
    requires st.stack != [] && StackSymbols(st.stack) && st.stack[|st.stack| - 1] != "("
    ensures var top := st.stack[|st.stack| - 1];
      var st' := State(st.output + [top], st.stack[..|st.stack| - 1]);
      && StackSymbols(st'.stack) && CountOpen(st'.stack) == CountOpen(st.stack)
      && Pending(st') == Pending(st)
      && Operands(st'.output) == Operands(st.output)
      && (NoParens(st.output) ==> NoParens(st'.output))
  {
    var top := st.stack[|st.stack| - 1];
    var rest := st.stack[..|st.stack| - 1];
    Pop(st.stack);
    AppendOperator(rest, top);
    AppendOperator(st.output, top);
  }

  /** Popping the `(` at the top of the stack. */
  lemma PopOpen(st: State)
    requires st.stack != [] && StackSymbols(st.stack) && st.stack[|st.stack| - 1] == "("
    ensures var st' := State(st.output, st.stack[..|st.stack| - 1]);
      && StackSymbols(st'.stack) && CountOpen(st'.stack) + 1 == CountOpen(st.stack)
      && Pending(st') == Pending(st)
  {
    Pop(st.stack);
    Append(st.stack[..|st.stack| - 1], "(");
  }

  // ----- the invariant of the conversion loop -----

  /** The stack after the tokens `seen`: `(` and operators, one `(` per unclosed parenthesis. */
  predicate Shape(st: State, seen: seq<string>) {
    StackSymbols(st.stack) && CountOpen(st.stack) == Depth(seen)
  }

  /** The tokens after `seen`: output and stack together hold the non-parentheses, operands in order. */
  predicate Content(st: State, seen: seq<string>) {
    && NoParens(st.output)
    && Pending(st) == multiset(NonParens(seen))
    && Operands(st.output) == Operands(seen)
  }

  /** main.go:80-88 find a `(` exactly when the stack holds one, and move only operators. */
  lemma {:induction false} PopToParenSpec(st: State)
    requires StackSymbols(st.stack)
    ensures PopToParen(st).None? <==> CountOpen(st.stack) == 0
    ensures PopToParen(st).Some? ==> var st' := PopToParen(st).value;
      && StackSymbols(st'.stack) && CountOpen(st'.stack) + 1 == CountOpen(st.stack)
      && Pending(st') == Pending(st)
      && Operands(st'.output) == Operands(st.output)
      && (NoParens(st.output) ==> NoParens(st'.output))
    decreases |st.stack|
  {
    if st.stack != [] {
      var top := st.stack[|st.stack| - 1];
      var rest := st.stack[..|st.stack| - 1];
      if top == "(" {
        PopOpen(st);
      } else {
        MoveTop(st);
        PopToParenSpec(State(st.output + [top], rest));
      }
    }
  }

  /** main.go:97-106 never pop a `(` (its precedence 0 is below every operator's) and move only operators. */
  lemma {:induction false} PopOperatorsSpec(st: State, token: string)
    requires StackSymbols(st.stack) && IsOperator(token)
    ensures var st' := PopOperators(st, token);
      && StackSymbols(st'.stack) && CountOpen(st'.stack) == CountOpen(st.stack)
      && Pending(st') == Pending(st)
      && Operands(st'.output) == Operands(st.output)
      && (NoParens(st.output) ==> NoParens(st'.output))
    decreases |st.stack|
  {
    if st.stack != [] {
      var top := st.stack[|st.stack| - 1];
      if PopsBefore(top, token) {
        assert top != "(";
        MoveTop(st);
        PopOperatorsSpec(State(st.output + [top], st.stack[..|st.stack| - 1]), token);
      }
    }
  }

  /** The five cases of one iteration of main.go:73-111. */
  lemma StepCases(st: State, t: string)
    ensures IsOperand(t) ==> Step(st, t) == Ok(State(st.output + [t], st.stack))
    ensures t == "(" ==> Step(st, t) == Ok(State(st.output, st.stack + [t]))
    ensures t == ")" ==> Step(st, t) == (if PopToParen(st).None? then Err(InvalidExpression) else Ok(PopToParen(st).value))
    ensures IsOperator(t) ==> Step(st, t) == Ok(State(PopOperators(st, t).output, PopOperators(st, t).stack + [t]))
    ensures !IsConvertible(t) ==> Step(st, t) == Err(InvalidExpression)
  {
    if IsOperator(t) || IsParen(t) {
      SymbolsAreNotOperands(t);
    }
  }

  /** One token fails exactly when it is not convertible or is an unmatched `)`, and keeps the shape. */
  lemma StepShape(st: State, seen: seq<string>, t: string)
    requires Shape(st, seen)
    ensures Step(st, t).Ok? <==> IsConvertible(t) && Depth(seen + [t]) >= 0
    ensures Step(st, t).Ok? ==> Shape(Step(st, t).value, seen + [t])
    ensures Step(st, t).Err? ==> Step(st, t).error == InvalidExpression
  {
    StepCases(st, t);
    Append(seen, t);
    if IsOperand(t) {
      if IsParen(t) { SymbolsAreNotOperands(t); }
    } else if t == "(" {
      Append(st.stack, t);
    } else if t == ")" {
      PopToParenSpec(st);
    } else if IsOperator(t) {
      OperatorShape(st, seen, t);
    }
  }

  lemma OperatorShape(st: State, seen: seq<string>, t: string)
    requires Shape(st, seen) && IsOperator(t)
    ensures Shape(State(PopOperators(st, t).output, PopOperators(st, t).stack + [t]), seen + [t])
  {
    var p := PopOperators(st, t);
    PopOperatorsSpec(st, t);
    AppendOperator(seen, t);
    AppendOperator(p.stack, t);
    PushSymbol(p.stack, t);
  }

  /** Pushing `(` or an operator keeps the stack to those symbols. */
  lemma PushSymbol(stack: seq<string>, t: string)
    requires StackSymbols(stack) && (t == "(" || IsOperator(t))
    ensures StackSymbols(stack + [t])
  {
    forall i | 0 <= i < |stack| + 1 ensures (stack + [t])[i] == "(" || IsOperator((stack + [t])[i]) {
      if i < |stack| {
        assert (stack + [t])[i] == stack[i];
      }
    }
  }

  lemma StepContent(st: State, seen: seq<string>, t: string)
    requires StackSymbols(st.stack) && Content(st, seen)
    ensures Step(st, t).Ok? ==> Content(Step(st, t).value, seen + [t])
  {
    StepCases(st, t);
    if IsOperand(t) {
      OperandContent(st, seen, t);
    } else if t == "(" {
      Append(seen, t);
      Append(st.stack, t);
    } else if t == ")" {
      Append(seen, t);
      PopToParenSpec(st);
    } else if IsOperator(t) {
      OperatorContent(st, seen, t);
    }
  }

  lemma OperandContent(st: State, seen: seq<string>, t: string)
    requires Content(st, seen) && IsOperand(t)
    ensures Content(State(st.output + [t], st.stack), seen + [t])
  {
    if IsParen(t) { SymbolsAreNotOperands(t); }
    Append(seen, t);
    Append(st.output, t);
  }

  lemma OperatorContent(st: State, seen: seq<string>, t: string)
    requires StackSymbols(st.stack) && Content(st, seen) && IsOperator(t)
    ensures Content(State(PopOperators(st, t).output, PopOperators(st, t).stack + [t]), seen + [t])
  {
    PopOperatorsSpec(st, t);
    PushContent(PopOperators(st, t), seen, t);
  }

  /** Pushing an operator onto the stack keeps the content of the tokens seen, `t` included. */
  lemma PushContent(p: State, seen: seq<string>, t: string)
    requires Content(p, seen) && IsOperator(t)
    ensures Content(State(p.output, p.stack + [t]), seen + [t])
  {
    AppendOperator(seen, t);
    AppendOperator(p.stack, t);
    calc {
      Pending(State(p.output, p.stack + [t]));
      multiset(p.output) + multiset(NonParens(p.stack + [t]));
      multiset(p.output) + (multiset(NonParens(p.stack)) + multiset{t});
      Pending(p) + multiset{t};
      multiset(NonParens(seen)) + multiset{t};
      multiset(NonParens(seen + [t]));
    }
  }

  /** An operator appended to a token list adds itself to the non-parentheses and no operand. */
  lemma AppendOperator(ts: seq<string>, t: string)
    requires IsOperator(t)
    ensures multiset(NonParens(ts + [t])) == multiset(NonParens(ts)) + multiset{t}
    ensures Operands(ts + [t]) == Operands(ts)
    ensures CountOpen(ts + [t]) == CountOpen(ts) && Depth(ts + [t]) == Depth(ts)
    ensures NoParens(ts) ==> NoParens(ts + [t])
  {
    SymbolsAreNotOperands(t);
    Append(ts, t);
  }

  /** The tokens pass the loop of lines 73-111: each is convertible and no `)` is unmatched. */
  predicate ScanOk(seen: seq<string>, rest: seq<string>)
    decreases |rest|
  {
    rest == [] || (IsConvertible(rest[0]) && Depth(seen + [rest[0]]) >= 0 && ScanOk(seen + [rest[0]], rest[1..]))
  }

  lemma {:induction false} ScanShape(st: State, seen: seq<string>, rest: seq<string>)
    requires Shape(st, seen)
    ensures Scan(st, rest).Ok? <==> ScanOk(seen, rest)
    ensures Scan(st, rest).Ok? ==> Shape(Scan(st, rest).value, seen + rest)
    ensures Scan(st, rest).Err? ==> Scan(st, rest).error == InvalidExpression
    decreases |rest|
  {
    if rest != [] {
      StepShape(st, seen, rest[0]);
      if Step(st, rest[0]).Ok? {
        assert Scan(st, rest) == Scan(Step(st, rest[0]).value, rest[1..]);
        ScanShape(Step(st, rest[0]).value, seen + [rest[0]], rest[1..]);
        assert seen + [rest[0]] + rest[1..] == seen + rest;
      }
    } else {
      assert seen + rest == seen;
    }
  }

  lemma {:induction false} ScanContent(st: State, seen: seq<string>, rest: seq<string>)
    requires Shape(st, seen) && Content(st, seen)
    ensures Scan(st, rest).Ok? ==> Content(Scan(st, rest).value, seen + rest)
    decreases |rest|
  {
    if rest == [] {
      assert seen + rest == seen;
    } else if Step(st, rest[0]).Ok? {
      var st' := Step(st, rest[0]).value;
      ScanStep(st, seen, rest);
      ScanContent(st', seen + [rest[0]], rest[1..]);
    }
  }

  /** One token of `rest` taken into `seen`, with both halves of the invariant kept. */
  lemma ScanStep(st: State, seen: seq<string>, rest: seq<string>)
    requires Shape(st, seen) && Content(st, seen)
    requires rest != [] && Step(st, rest[0]).Ok?
    ensures Shape(Step(st, rest[0]).value, seen + [rest[0]])
    ensures Content(Step(st, rest[0]).value, seen + [rest[0]])
    ensures Scan(st, rest) == Scan(Step(st, rest[0]).value, rest[1..])
    ensures seen + [rest[0]] + rest[1..] == seen + rest
  {
    assert seen + [rest[0]] + rest[1..] == seen + rest by {
      assert rest == [rest[0]] + rest[1..];
    }
    StepShape(st, seen, rest[0]);
    StepContent(st, seen, rest[0]);
  }

  lemma {:induction false} ScanOkPrefixes(seen: seq<string>, rest: seq<string>)
    ensures ScanOk(seen, rest) <==>
      AllConvertible(rest) && forall k :: 0 < k <= |rest| ==> Depth(seen + rest[..k]) >= 0
    decreases |rest|
  {
    if rest != [] {
      var seen' := seen + [rest[0]];
      var rest' := rest[1..];
      ScanOkPrefixes(seen', rest');
      assert seen + rest[..1] == seen';
      forall k | 1 < k <= |rest| ensures seen + rest[..k] == seen' + rest'[..k - 1] {
        assert rest'[..k - 1] == rest[1..k];
        assert rest[..k] == [rest[0]] + rest[1..k];
      }
      assert AllConvertible(rest) <==> IsConvertible(rest[0]) && AllConvertible(rest') by {
        forall i | 1 <= i < |rest| ensures rest[i] == rest'[i - 1] { }
      }
      if forall k :: 0 < k <= |rest| ==> Depth(seen + rest[..k]) >= 0 {
        forall k | 0 < k <= |rest'| ensures Depth(seen' + rest'[..k]) >= 0 {
          assert Depth(seen + rest[..k + 1]) >= 0;
        }
      }
    }
  }

  /** main.go:113-120 fail exactly when a `(` is left on the stack, and otherwise move it all. */
  lemma {:induction false} FlushSpec(st: State)
    requires StackSymbols(st.stack)
    ensures Flush(st).Ok? <==> CountOpen(st.stack) == 0
    ensures Flush(st).Err? ==> Flush(st).error == InvalidExpression
    ensures Flush(st).Ok? ==> var out := Flush(st).value;
      && multiset(out) == Pending(st)
      && Operands(out) == Operands(st.output)
      && (NoParens(st.output) ==> NoParens(out))
    decreases |st.stack|
  {
    if st.stack != [] {
      var top := st.stack[|st.stack| - 1];
      if top == "(" {
        PopOpen(st);
      } else {
        MoveTop(st);
        FlushSpec(State(st.output + [top], st.stack[..|st.stack| - 1]));
      }
    }
  }

  // ----- what infixToPostfix promises -----

  /**
   * The conversion fails exactly when some token is neither a number, an
   * identifier, a parenthesis nor one of the five operators, when a `)` has
   * no `(` to match, or when a `(` is never closed; the error is always
   * "Invalid expression".
   */
  lemma ConvertFails(ts: seq<string>)
    ensures Convert(ts).Ok? <==> AllConvertible(ts) && Balanced(ts)
    ensures Convert(ts).Err? ==> Convert(ts).error == InvalidExpression
  {
    var init := State([], []);
    assert [] + ts == ts;
    InitialShape();
    ScanShape(init, [], ts);
    ScanOkFromStart(ts);
    match Scan(init, ts)
    case Err(_) =>
    case Ok(st) =>
      assert Shape(st, ts);
      FlushSpec(st);
  }

  lemma InitialShape()
    ensures Shape(State([], []), [])
  {
  }

  /** `ScanOk` from the start: every token convertible and no prefix below depth 0. */
  lemma ScanOkFromStart(ts: seq<string>)
    ensures ScanOk([], ts) <==> AllConvertible(ts) && forall k :: 0 < k <= |ts| ==> Depth(ts[..k]) >= 0
  {
    ScanOkPrefixes([], ts);
    forall k | 0 < k <= |ts| ensures [] + ts[..k] == ts[..k] { }
  }

  /**
   * On success the output holds no parenthesis, is a permutation of the
   * other tokens, and keeps the numbers and identifiers in their order.
   */
  lemma ConvertOutput(ts: seq<string>)
    requires Convert(ts).Ok?
    ensures NoParens(Convert(ts).value)
    ensures multiset(Convert(ts).value) == multiset(NonParens(ts))
    ensures Operands(Convert(ts).value) == Operands(ts)
  {
    var init := State([], []);
    assert Shape(init, []) && Content(init, []);
    ScanShape(init, [], ts);
    ScanContent(init, [], ts);
    assert [] + ts == ts;
    FlushSpec(Scan(init, ts).value);
  }

  /**
   * A `)` is never pushed, so after the loop of main.go:73-111 the stack
   * holds none and the `top == ")"` test of main.go:116 never succeeds.
   */
  lemma ClosingParenNeverStacked(ts: seq<string>)
    ensures Scan(State([], []), ts).Ok? ==> ")" !in Scan(State([], []), ts).value.stack
  {
    InitialShape();
    ScanShape(State([], []), [], ts);
    if Scan(State([], []), ts).Ok? {
      var stack := Scan(State([], []), ts).value.stack;
      assert forall i :: 0 <= i < |stack| ==> stack[i] == "(" || IsOperator(stack[i]);
    }
  }

  lemma OperandStep(st: State, t: string)
    requires IsOperand(t)
    ensures Step(st, t) == Ok(State(st.output + [t], st.stack))
  {
  }

  lemma OperatorStep(st: State, t: string)
    requires IsOperator(t)
    ensures Step(st, t) == Ok(State(PopOperators(st, t).output, PopOperators(st, t).stack + [t]))
  {
    SymbolsAreNotOperands(t);
  }

  /**
   * Two binary operators between three operands: the first is output before
   * the second exactly when it has higher precedence, or equal precedence
   * and the second is not `^` (main.go:99-100).
   */
  lemma TwoOperators(a: string, o1: string, b: string, o2: string, c: string)
    requires IsOperand(a) && IsOperand(b) && IsOperand(c)
    requires IsOperator(o1) && IsOperator(o2)
    ensures Convert([a, o1, b, o2, c]) ==
      Ok(if PopsBefore(o1, o2) then [a, b, o1, c, o2] else [a, b, c, o2, o1])
  {
    TwoOperatorsScan(a, o1, b, o2, c);
    var st := Scan(State([], []), [a, o1, b, o2, c]).value;
    if PopsBefore(o1, o2) {
      FlushHead(st);
      assert [a, b, o1, c] + [o2] == [a, b, o1, c, o2] && [o2][..0] == [];
    } else {
      FlushHead(st);
      assert [a, b, c] + [o2] == [a, b, c, o2] && [o1, o2][..1] == [o1];
      var st' := State([a, b, c, o2], [o1]);
      FlushHead(st');
      assert [a, b, c, o2] + [o1] == [a, b, c, o2, o1] && [o1][..0] == [];
    }
  }

  /** The state the loop of main.go:73-111 leaves after `a o1 b o2 c`. */
  lemma TwoOperatorsScan(a: string, o1: string, b: string, o2: string, c: string)
    requires IsOperand(a) && IsOperand(b) && IsOperand(c)
    requires IsOperator(o1) && IsOperator(o2)
    ensures Scan(State([], []), [a, o1, b, o2, c]) ==
      Ok(if PopsBefore(o1, o2) then State([a, b, o1, c], [o2]) else State([a, b, c], [o1, o2]))
  {
    var s4 := if PopsBefore(o1, o2) then State([a, b, o1], [o2]) else State([a, b], [o1, o2]);
    calc {
      Scan(State([], []), [a, o1, b, o2, c]);
      { assert [a, o1, b, o2, c] == [a, o1, b] + [o2, c]; FirstOperation(a, o1, b, [o2, c]); }
      Scan(State([a, b], [o1]), [o2, c]);
      { assert [o2, c] == [o2] + [c] && [a, b] + [o1] == [a, b, o1] && [] + [o2] == [o2] && [o1] + [o2] == [o1, o2]; OperatorCons(State([a, b], [o1]), o2, [c]); PopOne([a, b], o1, o2); }
      Scan(s4, [c]);
      { assert [c] == [c] + []; OperandCons(s4, c, []); }
      Ok(State(s4.output + [c], s4.stack));
    }
    assert [a, b, o1] + [c] == [a, b, o1, c] && [a, b] + [c] == [a, b, c];
  }

  /** The tokens `a o b` from the start leave both operands output and `o` on the stack. */
  lemma FirstOperation(a: string, o: string, b: string, rest: seq<string>)
    requires IsOperand(a) && IsOperand(b) && IsOperator(o)
    ensures Scan(State([], []), [a, o, b] + rest) == Scan(State([a, b], [o]), rest)
  {
    calc {
      Scan(State([], []), [a, o, b] + rest);
      { assert [a, o, b] + rest == [a] + ([o, b] + rest) && [] + [a] == [a]; OperandCons(State([], []), a, [o, b] + rest); }
      Scan(State([a], []), [o, b] + rest);
      { assert [o, b] + rest == [o] + ([b] + rest) && [] + [o] == [o]; OperatorCons(State([a], []), o, [b] + rest); }
      Scan(State([a], [o]), [b] + rest);
      { assert [a] + [b] == [a, b]; OperandCons(State([a], [o]), b, rest); }
      Scan(State([a, b], [o]), rest);
    }
  }

  /** An operand at the head of the tokens goes to the output. */
  lemma OperandCons(st: State, t: string, rest: seq<string>)
    requires IsOperand(t)
    ensures Scan(st, [t] + rest) == Scan(State(st.output + [t], st.stack), rest)
  {
    assert ([t] + rest)[0] == t && ([t] + rest)[1..] == rest;
  }

  /** An operator at the head of the tokens pops what binds tighter, then is pushed. */
  lemma OperatorCons(st: State, t: string, rest: seq<string>)
    requires IsOperator(t)
    ensures Scan(st, [t] + rest) ==
      Scan(State(PopOperators(st, t).output, PopOperators(st, t).stack + [t]), rest)
  {
    assert ([t] + rest)[0] == t && ([t] + rest)[1..] == rest;
    OperatorStep(st, t);
  }

  /** A `(` at the head of the tokens is pushed. */
  lemma OpenCons(st: State, rest: seq<string>)
    ensures Scan(st, ["("] + rest) == Scan(State(st.output, st.stack + ["("]), rest)
  {
    assert (["("] + rest)[0] == "(" && (["("] + rest)[1..] == rest;
    SymbolsAreNotOperands("(");
  }

  /** An operator arriving on a `(` pops nothing, since `(` has precedence 0. */
  lemma PushAfterOpen(out: seq<string>, stack: seq<string>, o: string, rest: seq<string>)
    requires IsOperator(o)
    ensures Scan(State(out, stack + ["("]), [o] + rest) == Scan(State(out, stack + ["(", o]), rest)
  {
    var s := stack + ["("];
    assert s[|s| - 1] == "(" && !PopsBefore("(", o);
    OperatorCons(State(out, s), o, rest);
    assert s + [o] == stack + ["(", o];
  }

  /** A `)` arriving on `( o` outputs `o` and removes the `(`. */
  lemma CloseCons(out: seq<string>, stack: seq<string>, o: string, rest: seq<string>)
    requires IsOperator(o)
    ensures Scan(State(out, stack + ["(", o]), [")"] + rest) == Scan(State(out + [o], stack), rest)
  {
    var s := stack + ["(", o];
    var s' := stack + ["("];
    assert |o| == 1 && o[0] != '(';
    assert s[|s| - 1] == o && s[..|s| - 1] == s';
    assert s'[|s'| - 1] == "(" && s'[..|s'| - 1] == stack;
    assert PopToParen(State(out, s)) == Some(State(out + [o], stack));
    SymbolsAreNotOperands(")");
    assert ([")"] + rest)[0] == ")" && ([")"] + rest)[1..] == rest;
  }

  /** With one operator on the stack, it is popped exactly when it binds before `o`. */
  lemma PopOne(out: seq<string>, top: string, o: string)
    ensures PopOperators(State(out, [top]), o) ==
      if PopsBefore(top, o) then State(out + [top], []) else State(out, [top])
  {
    assert [top][..0] == [];
  }

  lemma FlushHead(st: State)
    requires st.stack != [] && !IsParen(st.stack[|st.stack| - 1])
    ensures Flush(st) == Flush(State(st.output + [st.stack[|st.stack| - 1]], st.stack[..|st.stack| - 1]))
  {
  }

  /** A single operator left on the stack is flushed to the end of the output. */
  lemma FlushLastOperator(out: seq<string>, o: string)
    requires IsOperator(o)
    ensures Flush(State(out, [o])) == Ok(out + [o])
  {
    assert |o| == 1 && o[0] != '(' && o[0] != ')';
    FlushHead(State(out, [o]));
    assert [o][..0] == [];
  }

  lemma ScanHead(st: State, ts: seq<string>)
    requires ts != [] && Step(st, ts[0]).Ok?
    ensures Scan(st, ts) == Scan(Step(st, ts[0]).value, ts[1..])
  {
  }

  /** One binary operator between two operands is output after both. */
  lemma OneOperator(a: string, o: string, b: string)
    requires IsOperand(a) && IsOperand(b) && IsOperator(o)
    ensures Convert([a, o, b]) == Ok([a, b, o])
  {
    assert [a, o, b] == [a, o, b] + [];
    FirstOperation(a, o, b, []);
    FlushHead(State([a, b], [o]));
    assert [a, b] + [o] == [a, b, o] && [o][..0] == [];
  }

  /**
   * A left-associative operator written twice, `a o o b`: the second pops
   * the first, so the postfix form `a o b o` applies the first to one value.
   */
  lemma RepeatedOperator(a: string, o: string, b: string)
    requires IsOperand(a) && IsOperand(b) && IsOperator(o) && !IsRightAssociative(o)
    ensures Convert([a, o, o, b]) == Ok([a, o, b, o])
  {
    RepeatedOperatorScan(a, o, b);
    assert |o| == 1 && o[0] != '(' && o[0] != ')';
    FlushHead(State([a, o, b], [o]));
    assert [a, o, b] + [o] == [a, o, b, o] && [o][..0] == [];
  }

  /** The state the loop of main.go:73-111 leaves after `a o o b`. */
  lemma RepeatedOperatorScan(a: string, o: string, b: string)
    requires IsOperand(a) && IsOperand(b) && IsOperator(o) && !IsRightAssociative(o)
    ensures Scan(State([], []), [a, o, o, b]) == Ok(State([a, o, b], [o]))
  {
    calc {
      Scan(State([], []), [a, o, o, b]);
      { assert [a, o, o, b] == [a] + [o, o, b] && [] + [a] == [a]; OperandCons(State([], []), a, [o, o, b]); }
      Scan(State([a], []), [o, o, b]);
      { assert [o, o, b] == [o] + [o, b] && [] + [o] == [o]; OperatorCons(State([a], []), o, [o, b]); }
      Scan(State([a], [o]), [o, b]);
      { SecondRepeat(a, o, b); }
      Scan(State([a, o], [o]), [b]);
      { assert [b] == [b] + [] && [a, o] + [b] == [a, o, b]; OperandCons(State([a, o], [o]), b, []); }
      Ok(State([a, o, b], [o]));
    }
  }

  /** The second copy of a left-associative operator pops the first. */
  lemma SecondRepeat(a: string, o: string, b: string)
    requires IsOperator(o) && !IsRightAssociative(o)
    ensures Scan(State([a], [o]), [o, b]) == Scan(State([a, o], [o]), [b])
  {
    assert [o, b] == [o] + [b] && [a] + [o] == [a, o] && [] + [o] == [o];
    OperatorCons(State([a], [o]), o, [b]);
    PopOne([a], o, o);
  }

  /** `3 ** 2` reaches the converter as two `*` tokens, the second popping the first. */
  lemma DoubleStarPostfix()
    ensures Convert(["3", "*", "*", "2"]) == Ok(["3", "*", "2", "*"])
  {
    assert Atoi("3") == Some(3) && Atoi("2") == Some(2);
    RepeatedOperator("3", "*", "2");
  }

  /** `1-2-3` groups to the left, `2^3^2` to the right. */
  lemma AssociativityExamples()
    ensures Convert(["1", "-", "2", "-", "3"]) == Ok(["1", "2", "-", "3", "-"])
    ensures Convert(["2", "^", "3", "^", "2"]) == Ok(["2", "3", "2", "^", "^"])
  {
    assert Atoi("1") == Some(1) && Atoi("2") == Some(2) && Atoi("3") == Some(3);
    TwoOperators("1", "-", "2", "-", "3");
    TwoOperators("2", "^", "3", "^", "2");
  }
}
