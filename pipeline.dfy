/**
 * The expression path of the read-eval-print loop (main.go:273-283): an
 * input line is converted to postfix and evaluated against the store.
 */
module Pipeline {
  import opened Classifier
  import opened Normalizer
  import opened Tokenizer
  import opened Converter
  import opened Evaluator

  /** `infixToPostfix` followed by `evaluatePostfix`; the first error wins. */
  function Calculate(expr: string, vars: Store): (r: Result<int>)
    ensures Convert(Tokenize(Normalized(expr))).Err? ==> r == Err(InvalidExpression)
    ensures r.Ok? ==> Convert(Tokenize(Normalized(expr))).Ok?
    ensures r.Ok? ==> WellFormed(Convert(Tokenize(Normalized(expr))).value)
    ensures StoreInRange(vars) && r.Ok? ==> InInt64(r.value)
  {
    ConvertFails(Tokenize(Normalized(expr)));
    match Convert(Tokenize(Normalized(expr)))
    case Err(e) => Err(e)
    case Ok(postfix) =>
      EvalSpec(postfix, vars);
      Eval(postfix, vars)
  }

  /** `-5` converts to `5 -`, which has no left operand to subtract from. */
  lemma UnaryMinusExample()
    ensures Convert(Tokenize(Normalized("-5"))) == Ok(["5", "-"])
    ensures Calculate("-5", map[]) == Err(InvalidExpression)
  {
    MinusFiveTokens();
    MinusFivePostfix();
    ShapeExamples();
  }

  lemma MinusFiveTokens()
    ensures Tokenize(Normalized("-5")) == ["-", "5"]
  {
    MinusFiveText();
    calc {
      Tokenize("-5");
      { assert "-5" == ['-'] + "5"; }
      Tokenize(['-'] + "5");
      { TokenizePadded('-', "5"); TokenizePlain("5"); }
      ["-", "5"];
    }
  }

  lemma MinusFiveText()
    ensures Normalized("-5") == "-5"
  {
    assert !IsSign("-5"[1]);
    NormalizedOfReduced("-5");
  }

  lemma MinusFivePostfix()
    ensures Convert(["-", "5"]) == Ok(["5", "-"])
  {
    var ts := ["-", "5"];
    assert Atoi("5") == Some(5);
    var s0 := State([], []);
    OperatorStep(s0, "-");
    var s1 := Step(s0, "-").value;
    assert PopOperators(s0, "-") == s0;
    assert s1 == State([], ["-"]);
    OperandStep(s1, "5");
    var s2 := Step(s1, "5").value;
    assert s2 == State(["5"], ["-"]);
    ScanHead(s0, ts);
    ScanHead(s1, ts[1..]);
    assert ts[1..][1..] == [];
    FlushHead(s2);
    assert ["5"] + ["-"] == ["5", "-"] && ["-"][..0] == [];
  }

  /** `7 / 2` is 3: the quotient is truncated. */
  lemma DivideExample()
    ensures Calculate("7 / 2", map[]) == Ok(3)
  {
    DivideTokens();
    DividePostfix();
    DivisionExamples();
  }

  lemma DivideTokens()
    ensures Tokenize(Normalized("7 / 2")) == ["7", "/", "2"]
  {
    calc {
      Tokenize(Normalized("7 / 2"));
      { DivideText(); }
      Tokenize("7 / 2");
      { assert "7" + " " + ['/'] + " " + "2" == "7 / 2"; }
      Tokenize("7" + " " + ['/'] + " " + "2");
      { TokenizeCons("7", '/', "2"); }
      ["7", "/"] + Tokenize("2");
      { TokenizePlain("2"); }
      ["7", "/", "2"];
    }
  }

  lemma DivideText()
    ensures Normalized("7 / 2") == "7 / 2"
  {
    var e := "7 / 2";
    assert e[1] == ' ' && e[3] == ' ';
    NormalizedOfReduced(e);
  }

  lemma DividePostfix()
    ensures Convert(["7", "/", "2"]) == Ok(["7", "2", "/"])
  {
    assert Atoi("7") == Some(7) && Atoi("2") == Some(2);
    OneOperator("7", "/", "2");
  }

  /** `1 - 2 - 3` is (1 - 2) - 3 = -4: subtraction groups to the left. */
  lemma LeftAssociativeExample()
    ensures Calculate("1 - 2 - 3", map[]) == Ok(-4)
  {
    LeftAssociativeTokens();
    AssociativityExamples();
    PostfixExamples();
  }

  lemma LeftAssociativeTokens()
    ensures Tokenize(Normalized("1 - 2 - 3")) == ["1", "-", "2", "-", "3"]
  {
    calc {
      Tokenize(Normalized("1 - 2 - 3"));
      { LeftAssociativeText(); }
      Tokenize("1 - 2 - 3");
      { assert "1" + " " + ['-'] + " " + ("2" + " " + ['-'] + " " + "3") == "1 - 2 - 3"; }
      Tokenize("1" + " " + ['-'] + " " + ("2" + " " + ['-'] + " " + "3"));
      { SpacedOperators("1", '-', "2", '-', "3"); }
      ["1", "-", "2", "-", "3"];
    }
  }

  lemma LeftAssociativeText()
    ensures Normalized("1 - 2 - 3") == "1 - 2 - 3"
  {
    var e := "1 - 2 - 3";
    assert e[1] == ' ' && e[3] == ' ' && e[5] == ' ' && e[7] == ' ';
    NormalizedOfReduced(e);
  }

  /** Two operators between three plain words with single spaces. */
  lemma SpacedOperators(a: string, o1: char, b: string, o2: char, c: string)
    requires IsPlainWord(a) && IsPlainWord(b) && IsPlainWord(c) && IsPadded(o1) && IsPadded(o2)
    ensures Tokenize(a + " " + [o1] + " " + (b + " " + [o2] + " " + c)) == [a, [o1], b, [o2], c]
  {
    TokenizeCons(a, o1, b + " " + [o2] + " " + c);
    TokenizeCons(b, o2, c);
    TokenizePlain(c);
  }

  /** `2 ^ 3 ^ 2` converts to `2 3 2 ^ ^`: powers group to the right. */
  lemma RightAssociativeExample()
    ensures Convert(Tokenize(Normalized("2 ^ 3 ^ 2"))) == Ok(["2", "3", "2", "^", "^"])
  {
    RightAssociativeTokens();
    AssociativityExamples();
  }

  lemma RightAssociativeTokens()
    ensures Tokenize(Normalized("2 ^ 3 ^ 2")) == ["2", "^", "3", "^", "2"]
  {
    calc {
      Tokenize(Normalized("2 ^ 3 ^ 2"));
      { RightAssociativeText(); }
      Tokenize("2 ^ 3 ^ 2");
      { assert "2" + " " + ['^'] + " " + ("3" + " " + ['^'] + " " + "2") == "2 ^ 3 ^ 2"; }
      Tokenize("2" + " " + ['^'] + " " + ("3" + " " + ['^'] + " " + "2"));
      { SpacedOperators("2", '^', "3", '^', "2"); }
      ["2", "^", "3", "^", "2"];
    }
  }

  lemma RightAssociativeText()
    ensures Normalized("2 ^ 3 ^ 2") == "2 ^ 3 ^ 2"
  {
    var e := "2 ^ 3 ^ 2";
    assert e[1] == ' ' && e[3] == ' ' && e[5] == ' ' && e[7] == ' ';
    NormalizedOfReduced(e);
  }

  /** `3 ** 2` is not a power: it converts to `3 * 2 *`, whose first `*` finds one value. */
  lemma DoubleStarExample()
    ensures Calculate("3 ** 2", map[]) == Err(InvalidExpression)
  {
    DoubleStarText();
    DoubleStarTokens();
    DoubleStarPostfix();
    PostfixExamples();
  }

  lemma DoubleStarText()
    ensures Normalized("3 ** 2") == "3 ** 2"
  {
    var e := "3 ** 2";
    assert !IsSign(e[0]) && !IsSign(e[1]) && !IsSign(e[2]) && !IsSign(e[3]) && !IsSign(e[4]);
    NormalizedOfReduced(e);
  }

  lemma DoubleStarTokens()
    ensures Tokenize("3 ** 2") == ["3", "*", "*", "2"]
  {
    calc {
      Tokenize("3 ** 2");
      { assert "3 ** 2" == "3" + (" " + (['*'] + (['*'] + (" " + "2")))); }
      Tokenize("3" + (" " + (['*'] + (['*'] + (" " + "2")))));
      { TokenizeWord("3", ['*'] + (['*'] + (" " + "2"))); }
      ["3"] + Tokenize(['*'] + (['*'] + (" " + "2")));
      { TokenizePadded('*', ['*'] + (" " + "2")); }
      ["3"] + (["*"] + Tokenize(['*'] + (" " + "2")));
      { TokenizePadded('*', " " + "2"); }
      ["3"] + (["*"] + (["*"] + Tokenize(" " + "2")));
      { TokenizeSpace("2"); TokenizePlain("2"); }
      ["3", "*", "*", "2"];
    }
  }
}
