/**
 * `normalizeOperators` (main.go:141-156): textual rewriting of runs of `+`
 * and `-` with `strings.ReplaceAll`, one pass for `++` and then three
 * loops that repeat a pass while the pattern is still present.
 */
module Normalizer {

  predicate IsSign(c: char) {
    c == '+' || c == '-'
  }

  /** `strings.Contains(s, [a, b])`. */
  predicate ContainsPair(s: string, a: char, b: char) {
    exists i :: 0 <= i < |s| - 1 && s[i] == a && s[i + 1] == b
  }

  /** The characters of `s` other than `+` and `-`, in order. */
  function NonSigns(s: string): string {
    if s == [] then [] else (if IsSign(s[0]) then [] else [s[0]]) + NonSigns(s[1..])
  }

  /**
   * `strings.ReplaceAll(s, [a, b], [r])`: scanning left to right, every
   * non-overlapping occurrence of the two-character pattern becomes `r`.
   */
  function ReplaceAll(s: string, a: char, b: char, r: char): (t: string)
    ensures |t| <= |s|
    ensures ContainsPair(s, a, b) ==> |t| < |s|
    ensures IsSign(a) && IsSign(b) && IsSign(r) ==> NonSigns(t) == NonSigns(s)
    decreases |s|
  {
    if |s| < 2 then s
    else if s[0] == a && s[1] == b then
      var t := [r] + ReplaceAll(s[2..], a, b, r);
      assert ContainsPair(s[1..], a, b) ==> ContainsPair(s[2..], a, b) || (s[1] == a && s[2] == b) by {
        if ContainsPair(s[1..], a, b) {
          var i :| 0 <= i < |s[1..]| - 1 && s[1..][i] == a && s[1..][i + 1] == b;
          if i > 0 { assert s[2..][i - 1] == a && s[2..][i] == b; }
        }
      }
      assert IsSign(a) && IsSign(b) ==> NonSigns(s) == NonSigns(s[1..]) && NonSigns(s[1..]) == NonSigns(s[2..]) by {
        assert s[1..][1..] == s[2..];
      }
      t
    else
      var t := [s[0]] + ReplaceAll(s[1..], a, b, r);
      assert ContainsPair(s, a, b) ==> ContainsPair(s[1..], a, b) by {
        if ContainsPair(s, a, b) {
          var i :| 0 <= i < |s| - 1 && s[i] == a && s[i + 1] == b;
          assert i > 0;
          assert s[1..][i - 1] == a && s[1..][i] == b;
        }
      }
      assert t[1..] == ReplaceAll(s[1..], a, b, r);
      t
  }

  /** A `for strings.Contains(s, p) { s = strings.ReplaceAll(s, p, r) }` loop. */
  function ReplaceWhile(s: string, a: char, b: char, r: char): (t: string)
    ensures !ContainsPair(t, a, b)
    decreases |s|
  {
    if ContainsPair(s, a, b) then ReplaceWhile(ReplaceAll(s, a, b, r), a, b, r) else s
  }

  /** What `normalizeOperators` returns for `expr`. */
  function Normalized(expr: string): string {
    var plus := ReplaceAll(expr, '+', '+', '+');
    var minus := ReplaceWhile(plus, '-', '-', '+');
    var plusMinus := ReplaceWhile(minus, '+', '-', '-');
    ReplaceWhile(plusMinus, '-', '+', '-')
  }

  /** main.go:141-156, with its three loops. */
  method NormalizeOperators(expr: string) returns (s: string)
    ensures s == Normalized(expr)
  {
    s := ReplaceAll(expr, '+', '+', '+');
    ghost var spec := ReplaceWhile(s, '-', '-', '+');
    while ContainsPair(s, '-', '-')
      invariant ReplaceWhile(s, '-', '-', '+') == spec
      decreases |s|
    {
      s := ReplaceAll(s, '-', '-', '+');
    }
    spec := ReplaceWhile(s, '+', '-', '-');
    while ContainsPair(s, '+', '-')
      invariant ReplaceWhile(s, '+', '-', '-') == spec
      decreases |s|
    {
      s := ReplaceAll(s, '+', '-', '-');
    }
    spec := ReplaceWhile(s, '-', '+', '-');
    while ContainsPair(s, '-', '+')
      invariant ReplaceWhile(s, '-', '+', '-') == spec
      decreases |s|
    {
      s := ReplaceAll(s, '-', '+', '-');
    }
  }

  // ----- length and the characters that survive -----

  lemma {:induction false} ReplaceWhileKeeps(s: string, a: char, b: char, r: char)
    requires IsSign(a) && IsSign(b) && IsSign(r)
    ensures |ReplaceWhile(s, a, b, r)| <= |s|
    ensures NonSigns(ReplaceWhile(s, a, b, r)) == NonSigns(s)
    decreases |s|
  {
    if ContainsPair(s, a, b) {
      ReplaceWhileKeeps(ReplaceAll(s, a, b, r), a, b, r);
    }
  }

  /** Normalisation never lengthens the text and keeps every other character, in order. */
  lemma NormalizedKeeps(expr: string)
    ensures |Normalized(expr)| <= |expr|
    ensures NonSigns(Normalized(expr)) == NonSigns(expr)
  {
    var plus := ReplaceAll(expr, '+', '+', '+');
    var minus := ReplaceWhile(plus, '-', '-', '+');
    var plusMinus := ReplaceWhile(minus, '+', '-', '-');
    ReplaceWhileKeeps(plus, '-', '-', '+');
    ReplaceWhileKeeps(minus, '+', '-', '-');
    ReplaceWhileKeeps(plusMinus, '-', '+', '-');
  }

  // ----- no mixed sign pair survives -----

  /** Replacing `-+` by `-` starts with the character it started with. */
  lemma {:induction false} MinusPlusHead(s: string)
    requires |s| > 0
    ensures |ReplaceAll(s, '-', '+', '-')| > 0 && ReplaceAll(s, '-', '+', '-')[0] == s[0]
  {
  }

  /** The `-+` pass cannot create a `+-`. */
  lemma {:induction false} MinusPlusKeepsNoPlusMinus(s: string)
    requires !ContainsPair(s, '+', '-')
    ensures !ContainsPair(ReplaceAll(s, '-', '+', '-'), '+', '-')
    decreases |s|
  {
    var t := ReplaceAll(s, '-', '+', '-');
    if |s| >= 2 {
      var k := if s[0] == '-' && s[1] == '+' then 2 else 1;
      var tail := s[k..];
      assert !ContainsPair(tail, '+', '-') by {
        forall i | 0 <= i < |tail| - 1 ensures !(tail[i] == '+' && tail[i + 1] == '-') {
          assert tail[i] == s[k + i] && tail[i + 1] == s[k + i + 1];
        }
      }
      MinusPlusKeepsNoPlusMinus(tail);
      var rest := ReplaceAll(tail, '-', '+', '-');
      assert t == [t[0]] + rest;
      if |tail| > 0 {
        MinusPlusHead(tail);
        assert t[0] == '+' ==> k == 1 && s[0] == '+';
        assert t[0] == '+' ==> rest[0] == s[1] && s[1] != '-';
      }
      forall i | 0 <= i < |t| - 1 ensures !(t[i] == '+' && t[i + 1] == '-') {
        if i > 0 {
          assert t[i] == rest[i - 1] && t[i + 1] == rest[i];
        }
      }
    }
  }

  lemma {:induction false} MinusPlusLoopKeepsNoPlusMinus(s: string)
    requires !ContainsPair(s, '+', '-')
    ensures !ContainsPair(ReplaceWhile(s, '-', '+', '-'), '+', '-')
    decreases |s|
  {
    if ContainsPair(s, '-', '+') {
      MinusPlusKeepsNoPlusMinus(s);
      MinusPlusLoopKeepsNoPlusMinus(ReplaceAll(s, '-', '+', '-'));
    }
  }

  /** The result holds neither `-+` (the last loop's exit condition) nor `+-`. */
  lemma NormalizedHasNoMixedPair(expr: string)
    ensures !ContainsPair(Normalized(expr), '-', '+')
    ensures !ContainsPair(Normalized(expr), '+', '-')
  {
    var plus := ReplaceAll(expr, '+', '+', '+');
    var minus := ReplaceWhile(plus, '-', '-', '+');
    var plusMinus := ReplaceWhile(minus, '+', '-', '-');
    MinusPlusLoopKeepsNoPlusMinus(plusMinus);
  }

  /** A pass over text without the pattern changes nothing. */
  lemma {:induction false} ReplaceAllAbsent(s: string, a: char, b: char, r: char)
    requires !ContainsPair(s, a, b)
    ensures ReplaceAll(s, a, b, r) == s
    decreases |s|
  {
    if |s| >= 2 {
      assert !(s[0] == a && s[1] == b);
      assert !ContainsPair(s[1..], a, b) by {
        forall i | 0 <= i < |s[1..]| - 1 ensures !(s[1..][i] == a && s[1..][i + 1] == b) {
          assert s[1..][i] == s[i + 1] && s[1..][i + 1] == s[i + 2];
        }
      }
      ReplaceAllAbsent(s[1..], a, b, r);
      assert s == [s[0]] + s[1..];
    }
  }

  /** Text in which no two signs are adjacent is left as it is. */
  lemma NormalizedOfReduced(expr: string)
    requires NoAdjacentSigns(expr)
    ensures Normalized(expr) == expr
  {
    forall a, b | IsSign(a) && IsSign(b) ensures !ContainsPair(expr, a, b) {
      forall i | 0 <= i < |expr| - 1 ensures !(expr[i] == a && expr[i + 1] == b) {
        assert !(IsSign(expr[i]) && IsSign(expr[i + 1]));
      }
    }
    ReplaceAllAbsent(expr, '+', '+', '+');
  }

  // ----- the sign of every run is kept -----

  /** The sign a run of two signs stands for: equal signs give `+`. */
  function SignProduct(a: char, b: char): char {
    if a == b then '+' else '-'
  }

  /**
   * Reference collapse: every maximal run of `+`/`-` becomes the single
   * sign that is its product (`-` iff the run holds an odd number of `-`).
   */
  function Canon(s: string): string
    decreases |s|
  {
    if |s| < 2 then s
    else if IsSign(s[0]) && IsSign(s[1]) then Canon([SignProduct(s[0], s[1])] + s[2..])
    else [s[0]] + Canon(s[1..])
  }

  predicate NoAdjacentSigns(s: string) {
    forall i :: 0 <= i < |s| - 1 ==> !(IsSign(s[i]) && IsSign(s[i + 1]))
  }

  lemma {:induction false} CanonHead(s: string)
    requires |s| > 0
    ensures |Canon(s)| > 0
    ensures !IsSign(s[0]) ==> Canon(s)[0] == s[0]
    decreases |s|
  {
    if |s| >= 2 && IsSign(s[0]) && IsSign(s[1]) {
      CanonHead([SignProduct(s[0], s[1])] + s[2..]);
    }
  }

  lemma {:induction false} CanonReduced(s: string)
    ensures NoAdjacentSigns(Canon(s))
    decreases |s|
  {
    if |s| >= 2 {
      if IsSign(s[0]) && IsSign(s[1]) {
        CanonReduced([SignProduct(s[0], s[1])] + s[2..]);
      } else {
        CanonReduced(s[1..]);
        CanonHead(s[1..]);
        var c := Canon(s);
        assert c == [s[0]] + Canon(s[1..]);
        assert IsSign(s[0]) ==> !IsSign(c[1]);
      }
    }
  }

  lemma {:induction false} CanonOfReduced(s: string)
    requires NoAdjacentSigns(s)
    ensures Canon(s) == s
    decreases |s|
  {
    if |s| >= 2 {
      CanonOfReduced(s[1..]);
    }
  }

  lemma CanonIdempotent(s: string)
    ensures Canon(Canon(s)) == Canon(s)
  {
    CanonReduced(s);
    CanonOfReduced(Canon(s));
  }

  /** Collapsing the tail first does not change the collapse of the whole. */
  lemma {:induction false} CanonCons(c: char, t: string)
    ensures Canon([c] + t) == Canon([c] + Canon(t))
    decreases |t|
  {
    if |t| >= 2 {
      if IsSign(c) && IsSign(t[0]) && IsSign(t[1]) {
        var m := SignProduct(t[0], t[1]);
        var t' := [m] + t[2..];
        CanonCons(c, t');
        assert ([c] + t)[2..] == t[1..] && ([SignProduct(c, t[0])] + t[1..])[2..] == t[2..];
        assert ([c] + t')[2..] == t[2..];
      } else if IsSign(c) && IsSign(t[0]) {
        var p := SignProduct(c, t[0]);
        CanonCons(p, t[1..]);
        assert ([c] + t)[2..] == t[1..];
        assert Canon(t) == [t[0]] + Canon(t[1..]);
        assert ([c] + Canon(t))[2..] == Canon(t[1..]);
      } else if IsSign(c) {
        CanonCons(t[0], t[1..]);
        assert ([c] + t)[1..] == t;
        assert Canon(t) == [t[0]] + Canon(t[1..]);
        assert ([t[0]] + Canon(t[1..]))[1..] == Canon(t[1..]);
        assert ([c] + Canon(t))[1..] == Canon(t);
      } else {
        CanonHead(t);
        CanonIdempotent(t);
        assert ([c] + t)[1..] == t;
        assert ([c] + Canon(t))[1..] == Canon(t);
      }
    }
  }

  /** One `ReplaceAll` pass whose replacement is the product of its pattern keeps every run's sign. */
  lemma {:induction false} CanonReplaceAll(s: string, a: char, b: char)
    requires IsSign(a) && IsSign(b)
    ensures Canon(ReplaceAll(s, a, b, SignProduct(a, b))) == Canon(s)
    decreases |s|
  {
    var r := SignProduct(a, b);
    if |s| >= 2 {
      if s[0] == a && s[1] == b {
        CanonReplaceAll(s[2..], a, b);
        CanonCons(r, ReplaceAll(s[2..], a, b, r));
        CanonCons(r, s[2..]);
      } else {
        CanonReplaceAll(s[1..], a, b);
        CanonCons(s[0], ReplaceAll(s[1..], a, b, r));
        CanonCons(s[0], s[1..]);
        assert [s[0]] + s[1..] == s;
      }
    }
  }

  lemma {:induction false} CanonReplaceWhile(s: string, a: char, b: char)
    requires IsSign(a) && IsSign(b)
    ensures Canon(ReplaceWhile(s, a, b, SignProduct(a, b))) == Canon(s)
    decreases |s|
  {
    if ContainsPair(s, a, b) {
      CanonReplaceAll(s, a, b);
      CanonReplaceWhile(ReplaceAll(s, a, b, SignProduct(a, b)), a, b);
    }
  }

  /**
   * Every rewrite turns two signs into their product, so the sign that each
   * run of `+`/`-` stands for is unchanged: a run with an odd number of `-`
   * still means `-`, an even one `+`.
   */
  lemma NormalizedKeepsSigns(expr: string)
    ensures Canon(Normalized(expr)) == Canon(expr)
  {
    var plus := ReplaceAll(expr, '+', '+', '+');
    var minus := ReplaceWhile(plus, '-', '-', '+');
    var plusMinus := ReplaceWhile(minus, '+', '-', '-');
    CanonReplaceAll(expr, '+', '+');
    CanonReplaceWhile(plus, '-', '-');
    CanonReplaceWhile(minus, '+', '-');
    CanonReplaceWhile(plusMinus, '-', '+');
  }

  // ----- what normalisation does not do -----

  /** A single `++` pass leaves `++` behind from `+++`, and `-+-` ends as `--`. */
  lemma NormalizedExamples()
    ensures Normalized("+++") == "++"
    ensures Normalized("-+-") == "--"
    ensures Canon("-+-") == "+"
  {
    assert ReplaceAll("+++", '+', '+', '+') == "++" by {
      assert "+++"[2..] == "+";
    }
    assert !ContainsPair("++", '-', '-') && !ContainsPair("++", '+', '-') && !ContainsPair("++", '-', '+');
    assert ReplaceAll("-+-", '+', '+', '+') == "-+-" by {
      assert "-+-"[1..] == "+-";
      assert "+-"[1..] == "-";
    }
    assert ContainsPair("-+-", '+', '-') by { assert "-+-"[1] == '+' && "-+-"[2] == '-'; }
    assert ReplaceAll("-+-", '+', '-', '-') == "--" by {
      assert "-+-"[1..] == "+-";
      assert "+-"[2..] == "";
    }
    assert !ContainsPair("--", '+', '-') && !ContainsPair("--", '-', '+');
    assert Canon("-+-") == "+" by {
      assert "-+-"[2..] == "-";
      assert Canon("--") == Canon("+") by { assert "--"[2..] == ""; }
    }
  }

  /** Hence normalisation is not idempotent. */
  lemma NormalizedNotIdempotent()
    ensures Normalized(Normalized("+++")) != Normalized("+++")
  {
    NormalizedExamples();
    assert ReplaceAll("++", '+', '+', '+') == "+" by { assert "++"[2..] == ""; }
  }
}
