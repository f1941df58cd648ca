/**
 * Token classification for the calculator: Go's 64-bit `int`, the rune
 * classes `unicode.IsSpace` and `unicode.IsLetter`, `strconv.Atoi`, and the
 * static operator table (`precedence`, `isRightAssociative`).
 */
module Classifier {

  /** Errors the core reports; each constructor is one of the source's messages. */
  datatype Error = InvalidExpression | DivisionByZero | UnknownVariable | InvalidIdentifier | InvalidAssignment

  datatype Result<T> = Ok(value: T) | Err(error: Error)

  // ----- Go's `int` on a 64-bit platform -----

  const MinInt: int := -0x8000_0000_0000_0000
  const MaxInt: int := 0x7fff_ffff_ffff_ffff
  const Modulus: int := 0x1_0000_0000_0000_0000

  predicate InInt64(x: int) {
    MinInt <= x <= MaxInt
  }

  /** Two's-complement wrap-around of an exact result into the `int` range. */
  function Wrap64(x: int): (r: int)
    ensures InInt64(r)
    ensures (x - r) % Modulus == 0
    ensures InInt64(x) ==> r == x
  {
    (x - MinInt) % Modulus + MinInt
  }

  // ----- rune classes -----

  /** `unicode.IsSpace`: the Latin-1 spaces and the other White_Space runes. */
  predicate IsSpace(c: char) {
    c == '\t' || c == '\n' || c == '\U{0B}' || c == '\U{0C}' || c == '\r' || c == ' '
    || c == '\U{85}' || c == '\U{A0}' || c == '\U{1680}'
    || ('\U{2000}' <= c <= '\U{200A}')
    || c == '\U{2028}' || c == '\U{2029}' || c == '\U{202F}' || c == '\U{205F}' || c == '\U{3000}'
  }

  /**
   * The letters of Unicode above U+007F. Which runes these are is left
   * unspecified: the model relies on no particular table.
   */
  const NonAsciiLetters: iset<char>

  /**
   * `unicode.IsLetter`: within ASCII exactly the Latin letters; above it,
   * some set of runes that contains no space.
   */
  predicate IsLetter(c: char) {
    ('A' <= c <= 'Z') || ('a' <= c <= 'z')
    || (c > '\U{7F}' && !IsSpace(c) && c in NonAsciiLetters)
  }

  predicate IsDigit(c: char) {
    '0' <= c <= '9'
  }

  /** `isValidIdentifier` (main.go:34-41): non-empty and every rune a letter. */
  predicate IsValidIdentifier(s: string) {
    |s| > 0 && forall i :: 0 <= i < |s| ==> IsLetter(s[i])
  }

  // ----- strconv.Atoi -----

  predicate IsDigits(s: string) {
    |s| > 0 && forall i :: 0 <= i < |s| ==> IsDigit(s[i])
  }

  /** The decimal value of a digit string, most significant digit first. */
  function DigitsValue(s: string): (v: nat)
    requires IsDigits(s)
    decreases |s|
  {
    var d := (s[|s| - 1] as int) - ('0' as int);
    if |s| == 1 then d else 10 * DigitsValue(s[..|s| - 1]) + d
  }

  /** The syntax `Atoi` accepts: an optional sign followed by decimal digits. */
  predicate HasIntSyntax(s: string) {
    IsDigits(s) || (|s| > 1 && (s[0] == '+' || s[0] == '-') && IsDigits(s[1..]))
  }

  function LiteralValue(s: string): int
    requires HasIntSyntax(s)
  {
    if IsDigits(s) then DigitsValue(s)
    else if s[0] == '-' then -(DigitsValue(s[1..]) as int)
    else DigitsValue(s[1..])
  }

  datatype Option<T> = None | Some(value: T)

  /** `strconv.Atoi`: a value, or an error for bad syntax or a value outside `int`. */
  function Atoi(s: string): (r: Option<int>)
    ensures r.Some? ==> InInt64(r.value) && |s| > 0
    ensures r.Some? ==> forall i :: 0 <= i < |s| ==> IsDigit(s[i]) || (i == 0 && (s[i] == '+' || s[i] == '-'))
    ensures r.Some? ==> exists i :: 0 <= i < |s| && IsDigit(s[i])
  {
    if HasIntSyntax(s) && InInt64(LiteralValue(s)) then
      assert IsDigit(s[|s| - 1]);
      Some(LiteralValue(s))
    else None
  }

  /** `isNumber` (main.go:59-62): `Atoi` succeeds. */
  predicate IsNumber(s: string) {
    Atoi(s).Some?
  }

  /** The tokens that `infixToPostfix` and `evaluatePostfix` treat as values. */
  predicate IsOperand(s: string) {
    IsNumber(s) || IsValidIdentifier(s)
  }

  // ----- strconv.Itoa, the inverse of Atoi -----

  function DigitChar(d: nat): (c: char)
    requires d < 10
    ensures IsDigit(c) && (c as int) - ('0' as int) == d
  {
    ('0' as int + d) as char
  }

  /** Decimal digits of a natural number, without leading zeros. */
  function NatToDigits(n: nat): (s: string)
    ensures IsDigits(s)
    decreases n
  {
    if n < 10 then [DigitChar(n)] else NatToDigits(n / 10) + [DigitChar(n % 10)]
  }

  /** `strconv.Itoa`: decimal text, with a `-` for negative values. */
  function Itoa(n: int): string {
    if n < 0 then "-" + NatToDigits(-n) else NatToDigits(n)
  }

  lemma {:induction false} DigitsValueOfNat(n: nat)
    ensures DigitsValue(NatToDigits(n)) == n
    decreases n
  {
    if n >= 10 {
      var s := NatToDigits(n);
      DigitsValueOfNat(n / 10);
      assert s[..|s| - 1] == NatToDigits(n / 10);
    }
  }

  /** Parsing what `Itoa` prints gives the value back, for every `int`. */
  lemma AtoiItoa(n: int)
    requires InInt64(n)
    ensures Atoi(Itoa(n)) == Some(n)
  {
    var s := Itoa(n);
    if n < 0 {
      DigitsValueOfNat(-n);
      assert s[1..] == NatToDigits(-n);
      assert s[0] == '-' && !IsDigit(s[0]);
    } else {
      DigitsValueOfNat(n);
    }
  }

  /** No token is both a number and an identifier: digits and signs are not letters. */
  lemma NumberIsNotIdentifier(s: string)
    ensures !(IsNumber(s) && IsValidIdentifier(s))
  {
    if IsNumber(s) {
      var i :| 0 <= i < |s| && IsDigit(s[i]);
      assert !IsLetter(s[i]);
    }
  }

  // ----- the operator table (main.go:16-31) -----

  predicate IsOperator(s: string) {
    s == "+" || s == "-" || s == "*" || s == "/" || s == "^"
  }

  /** `precedence`: `^` binds tightest, then `*` and `/`, then `+` and `-`; anything else is 0. */
  function Precedence(op: string): (p: nat)
    ensures p <= 3
    ensures p > 0 <==> IsOperator(op)
    ensures p == 3 <==> op == "^"
    ensures p == 1 <==> op == "+" || op == "-"
  {
    match op
    case "^" => 3
    case "*" => 2
    case "/" => 2
    case "+" => 1
    case "-" => 1
    case _ => 0
  }

  /** `isRightAssociative`: only `^` groups to the right. */
  predicate IsRightAssociative(op: string) {
    op == "^"
  }

  /** Parentheses and operators are not operands, so the converter never confuses them. */
  lemma SymbolsAreNotOperands(s: string)
    requires IsOperator(s) || s == "(" || s == ")"
    ensures !IsOperand(s)
  {
    assert |s| == 1 && !IsDigit(s[0]) && !IsLetter(s[0]);
  }
}
