# smart-calculator: a verified model of the expression pipeline

smart-calculator is a line-oriented integer calculator written in Go. Its
core lives in `main.go`. This project models that core in Dafny and proves
properties of the model.

- **Classifier** (`classify.dfy`) decides what a token is.
  - `isValidIdentifier`: a non-empty run of Unicode letters.
  - `isNumber`: whatever `strconv.Atoi` accepts.
  - The static operator table `precedence` / `isRightAssociative`.
  - It also models Go's 64-bit `int` with its two's-complement wrap-around, and `strconv.Atoi`.
  - `Itoa` is a reference printer of decimal text, which the program does not call. `AtoiItoa` proves that `Atoi` reads its output back.
- **Normalizer** (`normalize.dfy`) is `normalizeOperators`. It rewrites the text with one `strings.ReplaceAll` pass for `++`, then three loops that repeat a pass while `--`, `+-` or `-+` remains.
  - It is an imperative method, proved equal to the function `Normalized`.
- **Tokenizer** (`tokenize.dfy`) is `tokenize`. The replacer pads `( ) + - * / ^` with spaces, then `strings.Fields` splits the result.
- **Converter** (`postfix.dfy`) is `infixToPostfix`, the shunting-yard conversion.
  - The output and the operator stack are sequences, and the loops append to and truncate them as the Go slices are.
  - The method is proved equal to the function `Convert`.
- **Evaluator** (`evaluate.dfy`) is `resolveValue` and `evaluatePostfix`, a stack machine over 64-bit integers.
  - `/` truncates toward zero.
  - `^` is left as an unspecified `int`.
  - The method is proved equal to the function `Eval`.
- **Assignment** (`assignment.dfy`) is `handleAssignment`.
  - The program's global `variables` map becomes the field of a class, `VariableStore`.
  - The messages the Go code prints become the method's result.
- **Pipeline** (`pipeline.dfy`) is the expression branch of the read-eval-print loop: conversion, then evaluation.
- **Expression** (`expression.dfy`) says what a conversion means, with expression trees.
  - Each tree has fully parenthesised tokens, postfix tokens and a value by direct evaluation.
  - Converting the first gives the second, and evaluating the second gives the third (`ConvertThenEvaluate`).

Several laws one might expect of such a calculator do not hold for this code.
The model follows the code and proves the counterexamples:

- **Normalisation is not idempotent.** `+++` becomes `++`, because the `++` pass runs only once. `-+-` becomes `--`, because the `+-` loop recreates a `--` after the `--` loop has finished.
  - What normalisation does keep is the product of the signs in every run (`NormalizedKeepsSigns`).
- **A leading minus does not evaluate.** `-5` converts to `5 -`, which has nothing to subtract from.
- **`3 ** 2` fails in the evaluator, by stack underflow.** The repeated-operator test in the converter never fires: a token there is a single character.
- **Every conversion error is "Invalid expression".** Unbalanced parentheses have no error of their own.
- **The value of `2 ^ 3 ^ 2` is not stated.** Only its grouping `2 3 2 ^ ^` is proved, because the floating-point power is not modelled.

## Model

| member | source | states |
|---|---|---|
| Classifier.Wrap64 | main.go:177-182 | the result is a 64-bit `int` congruent to the exact value modulo 2^64, and equal to it when that value is in range |
| Classifier.Atoi | main.go:59-62 | a parsed value is a 64-bit `int`, read from a non-empty text of decimal digits with at most a leading sign |
| Classifier.AtoiItoa | main.go:217-218 | `Atoi` reads back the decimal text of every 64-bit `int` |
| Classifier.NumberIsNotIdentifier | main.go:59-62 | no token is both a number and an identifier |
| Classifier.IsValidIdentifier | main.go:34-41 | definition: a non-empty text whose every rune is a letter; `NumberIsNotIdentifier` and `SymbolsAreNotOperands` state what it excludes |
| Classifier.IsNumber | main.go:59-62 | definition: a text `Atoi` accepts; `Atoi` states what such a text looks like and the value it has |
| Classifier.IsRightAssociative | main.go:29-31 | definition: only `^` is right-associative; `TwoOperators` and `AssociativityExamples` state its effect on grouping |
| Classifier.Precedence | main.go:16-26 | `^` has precedence 3, `+` and `-` have 1, `*` and `/` have 2; any other text has 0 |
| Classifier.SymbolsAreNotOperands | main.go:74-92 | parentheses and the five operators are neither numbers nor identifiers |
| Normalizer.ReplaceAll | main.go:143 | a `ReplaceAll` pass never lengthens the text; it shortens it when the pattern occurs; sign-for-sign rewrites keep every other character in order |
| Normalizer.ReplaceWhile | main.go:145-154 | a replace-while-contains loop ends with the pattern absent |
| Normalizer.Normalized | main.go:141-156 | definition: the text after the `++` pass and the three loops; `NormalizeOperators` computes it and the lemmas below state its properties |
| Normalizer.NormalizeOperators | main.go:141-156 | the three loops compute `Normalized` |
| Normalizer.NormalizedKeeps | main.go:141-156 | normalising never lengthens the text and keeps every character other than `+`/`-`, in order |
| Normalizer.NormalizedHasNoMixedPair | main.go:149-155 | the result contains neither `-+` nor `+-` |
| Normalizer.NormalizedKeepsSigns | main.go:141-156 | each run of signs keeps its product: an even number of `-` gives `+`, an odd number gives `-` |
| Normalizer.NormalizedOfReduced | main.go:141-156 | text with no two adjacent signs is left unchanged |
| Normalizer.NormalizedExamples | main.go:143-151 | `+++` becomes `++` and `-+-` becomes `--`, whereas the sign product of `-+-` is `+` |
| Normalizer.NormalizedNotIdempotent | main.go:143 | normalising `+++` twice differs from normalising it once |
| Tokenizer.Pad | main.go:127-136 | definition: each of `( ) + - * / ^` replaced by itself between two spaces; `PadRemoveSpaces` and `PadIsolated` state its properties |
| Tokenizer.Fields | main.go:137 | definition: the maximal runs of non-white-space characters; `FieldsSpec` states its properties |
| Tokenizer.Tokenize | main.go:125-138 | definition: `Fields` of the padded text; `TokenizeSpec` states its properties |
| Tokenizer.PadRemoveSpaces | main.go:127-136 | padding adds only white space |
| Tokenizer.PadIsolated | main.go:127-136 | after padding, each of `( ) + - * / ^` has white space or an end of the text on either side |
| Tokenizer.FieldsSpec | main.go:137 | `Fields` yields non-empty pieces with no white space that concatenate to the text without its white space |
| Tokenizer.FieldsOfIsolated | main.go:137 | when padded characters are isolated, each piece holding one is exactly that character |
| Tokenizer.TokenizeSpec | main.go:125-138 | tokens are non-empty and space-free; every `( ) + - * / ^` is a token of its own; the tokens concatenate to the input minus its white space |
| Tokenizer.TokenizePadded | main.go:125-138 | a padded character at the head of the text becomes the first token |
| Tokenizer.TokenizeWord | main.go:125-138 | a non-empty word with no white space and nothing to pad, followed by a space, becomes the first token |
| Tokenizer.TokenizePlain | main.go:125-138 | such a word on its own is a single token |
| Converter.PopToParen | main.go:80-88 | definition of the `)` loop; `PopToParenSpec` states its properties |
| Converter.PopOperators | main.go:97-106 | definition of the operator-popping loop; `PopOperatorsSpec` states its properties |
| Converter.Flush | main.go:113-120 | definition of the final loop; `FlushSpec` states its properties |
| Converter.Convert | main.go:70-121 | definition: the token loop from empty slices, then the final loop; `ConvertTokens` computes it and the lemmas below state its properties |
| Converter.ConvertTokens | main.go:70-121 | the shunting-yard loops compute `Convert` |
| Converter.InfixToPostfix | main.go:65-122 | the conversion of `Tokenize(Normalized(expr))` |
| Converter.RepeatedOperatorTestIsDead | main.go:92-96 | a token that passed the operator test never contains `**` or `//` |
| Converter.PopToParenSpec | main.go:79-91 | the `)` loop fails exactly when the stack holds no `(`; otherwise it removes exactly one `(`, moves only operators and loses nothing pending |
| Converter.PopOperatorsSpec | main.go:97-106 | the operator-popping loop never removes a `(` and only moves operators to the output |
| Converter.StepShape | main.go:73-111 | one token succeeds exactly when it is convertible and closes no parenthesis that was never opened; the stack then holds only `(` and operators, one `(` per unclosed parenthesis |
| Converter.ScanShape | main.go:73-111 | the token loop succeeds exactly when every token is convertible and no prefix closes more than it opened; its only error is "Invalid expression" |
| Converter.ScanContent | main.go:73-111 | output plus stack hold every non-parenthesis seen so far; the output holds no parenthesis and keeps the operands in order |
| Converter.FlushSpec | main.go:113-120 | the final loop fails exactly when a `(` is left and otherwise outputs everything pending, keeping the operand order |
| Converter.ClosingParenNeverStacked | main.go:116-117 | after the token loop the stack holds no `)`, so the `)` half of that test never fires |
| Converter.ConvertFails | main.go:73-121 | conversion succeeds exactly when every token is a number, identifier, parenthesis or operator and the parentheses balance; every failure is "Invalid expression" |
| Converter.ConvertOutput | main.go:73-121 | a successful output holds no parenthesis, is a permutation of the non-parenthesis tokens, and keeps numbers and identifiers in their order |
| Converter.OpenCons | main.go:76-77 | a `(` at the head of the tokens is pushed and nothing else changes |
| Converter.PushAfterOpen | main.go:97-107 | an operator right after a `(` pops nothing and is pushed |
| Converter.CloseCons | main.go:78-91 | a `)` with `( o` on top of the stack outputs `o` and removes the `(`, leaving the stack below as it was |
| Converter.FlushLastOperator | main.go:113-120 | a single operator left on the stack is appended to the output |
| Converter.OneOperator | main.go:73-121 | `a o b` converts to `a b o` |
| Converter.TwoOperators | main.go:97-107 | in `a o1 b o2 c`, `o1` is output before `o2` exactly when it has higher precedence, or the same precedence and `o2` is not `^` |
| Converter.AssociativityExamples | main.go:97-107 | `1-2-3` converts to `1 2 - 3 -`; `2^3^2` converts to `2 3 2 ^ ^` |
| Converter.RepeatedOperator | main.go:92-107 | a doubled left-associative operator `a o o b` converts to `a o b o` |
| Converter.DoubleStarPostfix | main.go:92-107 | `3 * * 2` is accepted by the converter as `3 * 2 *` |
| Evaluator.TruncDiv | main.go:187 | Go's quotient: the remainder is smaller than the divisor and is zero or has the sign of the dividend |
| Evaluator.TruncDivInRange | main.go:187 | the quotient of two `int`s is an `int` unless it is `MinInt / -1` |
| Evaluator.PowApprox | main.go:189 | `^` gives some 64-bit `int` |
| Evaluator.ApplyOp | main.go:176-192 | the result is an `int`; the operation fails exactly on an unknown operator or a zero divisor; "Division by zero" exactly for `/` |
| Evaluator.ApplyOpExact | main.go:176-192 | `+ - *` are exact when the result fits; `/` truncates toward zero; `MinInt / -1` wraps to `MinInt` |
| Evaluator.ResolveValue | main.go:44-56 | succeeds exactly for a number or a bound identifier, with the `Atoi` value or the store's value; otherwise "Unknown variable" for an identifier and "Invalid identifier" for anything else |
| Evaluator.Eval | main.go:159-200 | definition: the token loop from an empty stack, which must leave exactly one value; `EvaluatePostfix` computes it and `EvalSpec` states its properties |
| Evaluator.EvaluatePostfix | main.go:159-200 | the stack loop computes `Eval` |
| Evaluator.EvalStepSpec | main.go:161-195 | one token changes the height by its arity and fails only by underflow, an unbound identifier, an unknown operator or a zero divisor |
| Evaluator.EvalFromOk | main.go:161-195 | a successful run fits its stack, resolves every identifier and knows every operator; it ends at the predicted height; without `/` these conditions guarantee success |
| Evaluator.EvalFromErr | main.go:161-195 | each error of a run has its cause among the tokens; "Invalid identifier" never arises |
| Evaluator.EvalSpec | main.go:159-200 | success needs well-formed postfix with bound identifiers and then gives an `int`; without `/` they suffice; each error has its cause |
| Evaluator.EvalFromAppend | main.go:161-195 | running `p + q` is running `p`, then `q` from the stack `p` left; an error in `p` ends the run |
| Evaluator.EvalFromBase | main.go:161-195 | a successful run leaves the values below its starting stack untouched |
| Evaluator.EvalConcat | main.go:159-200 | when `p` and `q` each evaluate to one value, `p q o` applies `o` to the two, the value of `p` on the left |
| Evaluator.DivisionExamples | main.go:183-187 | `7 2 /` is 3, `-7 2 /` is -3, `7 -2 /` is -3 |
| Evaluator.DivisionByZeroExample | main.go:184-186 | `5 0 /` fails with "Division by zero" |
| Evaluator.ShapeExamples | main.go:169-197 | `5 -` underflows (lines 169-170) and `1 2` leaves two values (lines 196-197): both fail with "Invalid expression" |
| Evaluator.VariableExamples | main.go:48-53 | `x 1 +` fails with "Unknown variable" on an empty store and is 6 when `x` is 5 |
| Evaluator.PostfixExamples | main.go:159-200 | `1 2 - 3 -` is -4; `3 * 2 *` fails |
| Expression.InfixScan | main.go:73-111 | a fully parenthesised expression passes the token loop in one go, whatever the stack holds: its postfix form is appended to the output and the stack is as before |
| Expression.ConvertInfix | main.go:70-121 | the fully parenthesised tokens of every expression tree convert to its postfix tokens |
| Expression.EvalFromPostfix | main.go:161-195 | running the postfix form of a tree pushes its direct value, or fails with the first error direct evaluation meets |
| Expression.EvalOfPostfix | main.go:159-200 | evaluating the postfix form of a tree is its direct evaluation, errors included |
| Expression.ConvertThenEvaluate | main.go:70-200 | converting the fully parenthesised tokens of a tree, then evaluating, gives its direct value, errors included |
| Expression.TwoOperatorsGrouping | main.go:97-107 | `a o1 b o2 c` groups as `(a o1 b) o2 c` when `o1` is popped before `o2` is pushed, and as `a o1 (b o2 c)` otherwise |
| Expression.ParenthesisedLeft | main.go:76-120 | `( a o1 b ) o2 c` converts to `a b o1 c o2`, the postfix of `(a o1 b) o2 c`, whatever the two operators |
| Expression.ParenthesisedRight | main.go:76-120 | `a o1 ( b o2 c )` converts to `a b c o2 o1`, the postfix of `a o1 (b o2 c)`, whatever the two operators |
| Expression.LeftGroupingExample | main.go:70-200 | `( 1 + 2 ) * 3` converts to `1 2 + 3 *`, which is 9 |
| Expression.RightGroupingExample | main.go:70-200 | `2 * ( 3 + 4 )` converts to `2 3 4 + *`, which is 14 |
| Assignment.SplitOn | main.go:204 | `strings.Split`: one more part than separators, no part holds one, and joining them gives the text back |
| Assignment.TrimSpace | main.go:209-210 | white space is cut from the ends only, and the result starts and ends with a non-space |
| Assignment.ParseAssignment | main.go:203-232 | a successful parse yields an identifier and an `int`; the only errors are the three the code prints |
| Assignment.ParseAssignmentSpec | main.go:203-232 | success exactly when there is one `=`, the left side is an identifier and the right side resolves, the value being what it resolves to; each message's exact condition |
| Assignment.Bind | main.go:219 | the store gains or overwrites only the key written; the key invariant and the value range are kept |
| Assignment.Assign | main.go:203-232 | only the left side's binding may change, to the parsed value; a failure changes nothing; keys stay identifiers and values stay `int`s |
| Assignment.VariableStore.constructor | main.go:13 | the store starts empty |
| Assignment.VariableStore.HandleAssignment | main.go:203-232 | the new store is `Assign` of the old one; the outcome is the bound value or the printed message |
| Assignment.SpacedAssignment | main.go:203-232 | how `l = r` is decided from its two sides |
| Assignment.NumberAssignment | main.go:217-220 | `x = n` binds `x` to `n` |
| Assignment.CopyAssignment | main.go:222-229 | `y = x` with `x` bound copies its value |
| Assignment.ChainExample | main.go:217-229 | `x = n` followed by `y = x` binds both to `n` |
| Assignment.UnboundExample | main.go:223-226 | `x = y` with `y` unbound fails with "Unknown variable" and leaves the store alone |
| Assignment.TwoEqualsExample | main.go:204-207 | a line with two `=` fails with "Invalid assignment" |
| Pipeline.Calculate | main.go:273-283 | a failed conversion is "Invalid expression"; a success comes from well-formed postfix and is an `int` |
| Pipeline.UnaryMinusExample | main.go:273-282 | `-5` converts to `5 -` and fails |
| Pipeline.DivideExample | main.go:273-283 | `7 / 2` is 3 |
| Pipeline.LeftAssociativeExample | main.go:273-283 | `1 - 2 - 3` is -4 |
| Pipeline.RightAssociativeExample | main.go:273-276 | `2 ^ 3 ^ 2` converts to `2 3 2 ^ ^` |
| Pipeline.DoubleStarExample | main.go:273-282 | `3 ** 2` fails with "Invalid expression" |

## Left out

- **The read-eval-print loop (main.go:234-285).** The model leaves out reading standard input, the `/exit` and `/help` commands, "Unknown command", the lookup of a bare identifier, and printing.
  - `Calculate` models only the expression branch, lines 273-283.
  - It returns each error as it arises. The loop prints "Invalid expression" for all of them.
- **The `fmt.Println` calls in `handleAssignment`.** The message is the `Err` outcome of `HandleAssignment`.
- **PowApprox: the value of `int(math.Pow(float64(a), float64(b)))` is not modelled, because it is floating point.** The table `PowTable` is left unspecified.
  - Only the result being an `int` is used.
  - No property depends on the value of `^`.
- **IsLetter: which runes above U+007F are letters is left unspecified, because the Unicode tables are not modelled.** Only the ASCII letters are fixed.
  - The set contains no white space.
- **Text is a sequence of runes.** Byte lengths and invalid UTF-8 are not modelled.
- **`strconv.Atoi` reports only success or failure.** Go's two error kinds, syntax and range, are merged.
- **Library code is modelled by definitions of its observable behaviour, for the arguments the core passes.** This covers:
  - `strings.ReplaceAll` for a two-character pattern;
  - `strings.Split` for a one-character separator;
  - `strings.TrimSpace`;
  - `strings.Fields`;
  - `strings.NewReplacer` with one-character keys;
  - `strings.Contains`.
- ConvertOutput: states what a successful output contains and the order of its operands, not how it groups the operations. Grouping is proved for fully parenthesised text (`ConvertInfix`), for two operators (`TwoOperatorsGrouping`) and for one parenthesised pair (`ParenthesisedLeft`, `ParenthesisedRight`).
  - No theorem gives the tree for arbitrary text with parentheses left out. That would need a precedence grammar to compare against, which the program does not have.
- **The `**` / `//` test of main.go:94-96 is not executed in `ConvertTokens`.** Its branch cannot be taken. `RepeatedOperatorTestIsDead` proves this.
- **The global map (main.go:13).** `VariableStore` holds it for assignment, and `EvaluatePostfix` and `Calculate` take the store as a parameter.
