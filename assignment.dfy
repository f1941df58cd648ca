/**
 * `handleAssignment` (main.go:203-232): a line `left = right` binds the
 * identifier `left` to a number or to the value of a bound identifier. The
 * program's global map is the field of a `VariableStore`; the messages it
 * prints are the method's result.
 */
module Assignment {
  import opened Classifier
  import opened Evaluator

  // ----- strings.Split with a one-character separator -----

  function CountChar(s: string, c: char): nat {
    if s == [] then 0 else (if s[0] == c then 1 else 0) + CountChar(s[1..], c)
  }

  /** The parts joined back with `sep` between them. */
  function JoinWith(parts: seq<string>, sep: char): string
    requires |parts| > 0
    decreases |parts|
  {
    if |parts| == 1 then parts[0] else parts[0] + [sep] + JoinWith(parts[1..], sep)
  }

  /**
   * `strings.Split(s, sep)`: one more part than there are separators, no
   * part holding one, and the parts spell `s` when joined with `sep`.
   */
  function SplitOn(s: string, sep: char): (parts: seq<string>)
    ensures |parts| == CountChar(s, sep) + 1
    ensures forall i :: 0 <= i < |parts| ==> sep !in parts[i]
    ensures JoinWith(parts, sep) == s
    decreases |s|
  {
    if s == [] then [""]
    else
      var rest := SplitOn(s[1..], sep);
      if s[0] == sep then
        assert JoinWith([""] + rest, sep) == [sep] + JoinWith(rest, sep) by {
          assert ([""] + rest)[1..] == rest;
        }
        [""] + rest
      else
        var parts := [[s[0]] + rest[0]] + rest[1..];
        assert JoinWith(parts, sep) == [s[0]] + JoinWith(rest, sep) by {
          assert parts[1..] == rest[1..];
          if |rest| > 1 {
            assert JoinWith(rest, sep) == rest[0] + [sep] + JoinWith(rest[1..], sep);
          }
        }
        assert s == [s[0]] + s[1..];
        parts
  }

  // ----- strings.TrimSpace -----

  predicate AllSpace(s: string) {
    forall i :: 0 <= i < |s| ==> IsSpace(s[i])
  }

  /** `s` without its leading white space: a suffix of `s` that starts with a non-space. */
  function TrimLeft(s: string): (t: string)
    ensures |t| <= |s| && t == s[|s| - |t|..] && AllSpace(s[..|s| - |t|])
    ensures t == [] || !IsSpace(t[0])
    decreases |s|
  {
    if s != [] && IsSpace(s[0]) then
      var t := TrimLeft(s[1..]);
      assert s[1..][|s| - 1 - |t|..] == s[|s| - |t|..];
      assert forall i :: 0 <= i < |s| - |t| ==> IsSpace(s[i]) by {
        forall i | 1 <= i < |s| - |t| ensures IsSpace(s[i]) {
          assert s[1..][..|s| - 1 - |t|][i - 1] == s[i];
        }
      }
      t
    else s
  }

  /** `s` without its trailing white space: a prefix of `s` that ends with a non-space. */
  function TrimRight(s: string): (t: string)
    ensures |t| <= |s| && t == s[..|t|] && AllSpace(s[|t|..])
    ensures t == [] || !IsSpace(t[|t| - 1])
    decreases |s|
  {
    if s != [] && IsSpace(s[|s| - 1]) then
      var t := TrimRight(s[..|s| - 1]);
      assert s[..|s| - 1][..|t|] == s[..|t|];
      assert forall i :: |t| <= i < |s| ==> IsSpace(s[i]) by {
        forall i | |t| <= i < |s| - 1 ensures IsSpace(s[i]) {
          assert s[..|s| - 1][|t|..][i - |t|] == s[i];
        }
      }
      t
    else s
  }

  /** `t` is `s` with white space before position `i` and after `t` cut off. */
  predicate CutFrom(s: string, i: int, t: string) {
    0 <= i && i + |t| <= |s| && t == s[i..i + |t|] && AllSpace(s[..i]) && AllSpace(s[i + |t|..])
  }

  /**
   * `strings.TrimSpace`: the middle of `s`, with only white space cut from
   * either end, and beginning and ending with a non-space.
   */
  function TrimSpace(s: string): (t: string)
    ensures exists i :: CutFrom(s, i, t)
    ensures t == [] || (!IsSpace(t[0]) && !IsSpace(t[|t| - 1]))
  {
    var l := TrimLeft(s);
    var t := TrimRight(l);
    TrimBoth(s, l, t);
    t
  }

  /** The two trims together cut white space from the ends of `s` only. */
  lemma TrimBoth(s: string, l: string, t: string)
    requires |l| <= |s| && l == s[|s| - |l|..] && AllSpace(s[..|s| - |l|])
    requires l == [] || !IsSpace(l[0])
    requires |t| <= |l| && t == l[..|t|] && AllSpace(l[|t|..])
    requires t == [] || !IsSpace(t[|t| - 1])
    ensures exists i :: CutFrom(s, i, t)
    ensures t == [] || (!IsSpace(t[0]) && !IsSpace(t[|t| - 1]))
  {
    var i := |s| - |l|;
    assert t == s[i..i + |t|] by {
      assert s[i..i + |t|] == l[..|t|];
    }
    assert AllSpace(s[i + |t|..]) by {
      assert s[i + |t|..] == l[|t|..];
    }
    assert CutFrom(s, i, t);
  }

  /** Splitting text with exactly one separator gives the two sides. */
  lemma SplitOnce(l: string, r: string, sep: char)
    requires sep !in l && sep !in r
    ensures SplitOn(l + [sep] + r, sep) == [l, r]
  {
    assert l + [sep] + r == l + ([sep] + r);
    assert SplitOn([sep] + r, sep) == ["", r] by {
      assert ([sep] + r)[1..] == r;
      SplitNoSep(r, sep);
    }
    SplitPrefix(l, [sep] + r, sep);
    assert l + "" == l;
  }

  lemma {:induction false} SplitNoSep(s: string, sep: char)
    requires sep !in s
    ensures SplitOn(s, sep) == [s]
    decreases |s|
  {
    if s != [] {
      SplitNoSep(s[1..], sep);
      assert [s[0]] + s[1..] == s;
    }
  }

  /** A separator-free prefix is glued to the first part. */
  lemma {:induction false} SplitPrefix(l: string, rest: string, sep: char)
    requires sep !in l
    ensures SplitOn(l + rest, sep) == [l + SplitOn(rest, sep)[0]] + SplitOn(rest, sep)[1..]
    decreases |l|
  {
    if l == [] {
      assert l + rest == rest;
      assert l + SplitOn(rest, sep)[0] == SplitOn(rest, sep)[0];
      assert [SplitOn(rest, sep)[0]] + SplitOn(rest, sep)[1..] == SplitOn(rest, sep);
    } else {
      SplitPrefix(l[1..], rest, sep);
      assert (l + rest)[1..] == l[1..] + rest;
      assert (l + rest)[0] == l[0];
      assert [l[0]] + (l[1..] + SplitOn(rest, sep)[0]) == l + SplitOn(rest, sep)[0];
    }
  }

  lemma {:induction false} TrimLeftSpaces(a: string, x: string)
    requires AllSpace(a) && (x == [] || !IsSpace(x[0]))
    ensures TrimLeft(a + x) == x
    decreases |a|
  {
    if a == [] {
      assert a + x == x;
    } else {
      assert (a + x)[1..] == a[1..] + x;
      TrimLeftSpaces(a[1..], x);
    }
  }

  lemma {:induction false} TrimRightSpaces(x: string, b: string)
    requires AllSpace(b) && (x == [] || !IsSpace(x[|x| - 1]))
    ensures TrimRight(x + b) == x
    decreases |b|
  {
    if b == [] {
      assert x + b == x;
    } else {
      var b' := b[..|b| - 1];
      assert (x + b)[..|x + b| - 1] == x + b';
      TrimRightSpaces(x, b');
    }
  }

  /** TrimSpace gives back a word with white space around it, whatever that white space is. */
  lemma TrimAround(a: string, w: string, b: string)
    requires AllSpace(a) && AllSpace(b)
    requires |w| > 0 && !IsSpace(w[0]) && !IsSpace(w[|w| - 1])
    ensures TrimSpace(a + w + b) == w
  {
    assert a + w + b == a + (w + b);
    TrimLeftSpaces(a, w + b);
    TrimRightSpaces(w, b);
  }

  // ----- the assignment -----

  /**
   * What `handleAssignment` decides for `line` against the store `vars`:
   * the identifier and the value to bind, or the message it prints. It
   * succeeds exactly when the line holds one `=`, the trimmed left side is
   * an identifier, and the trimmed right side is a number or a bound
   * identifier; the value is then what `resolveValue` gives the right side.
   * The messages come in the order main.go:205-231 test for them.
   */
  function ParseAssignment(vars: Store, line: string): (r: Result<(string, int)>)
    ensures r.Ok? ==> IsValidIdentifier(r.value.0)
    ensures r.Ok? && StoreInRange(vars) ==> InInt64(r.value.1)
    ensures r.Err? ==> r.error in {InvalidAssignment, InvalidIdentifier, UnknownVariable}
  {
    var parts := SplitOn(line, '=');
    if |parts| != 2 then Err(InvalidAssignment)
    else
      var left := TrimSpace(parts[0]);
      var right := TrimSpace(parts[1]);
      if !IsValidIdentifier(left) then Err(InvalidIdentifier)
      else if IsNumber(right) then Ok((left, Atoi(right).value))
      else if IsValidIdentifier(right) then
        if right in vars then Ok((left, vars[right])) else Err(UnknownVariable)
      else Err(InvalidAssignment)
  }

  /** The conditions under which each outcome of `ParseAssignment` occurs. */
  lemma ParseAssignmentSpec(vars: Store, line: string)
    ensures var parts := SplitOn(line, '=');
      ParseAssignment(vars, line).Ok? <==>
        && CountChar(line, '=') == 1
        && IsValidIdentifier(TrimSpace(parts[0]))
        && (IsNumber(TrimSpace(parts[1])) || (IsValidIdentifier(TrimSpace(parts[1])) && TrimSpace(parts[1]) in vars))
    ensures var parts := SplitOn(line, '=');
      ParseAssignment(vars, line).Ok? ==> ParseAssignment(vars, line).value.0 == TrimSpace(parts[0]) && ResolveValue(TrimSpace(parts[1]), vars) == Ok(ParseAssignment(vars, line).value.1)
    ensures var parts := SplitOn(line, '=');
      ParseAssignment(vars, line) == Err(InvalidAssignment) <==>
        CountChar(line, '=') != 1 || (IsValidIdentifier(TrimSpace(parts[0])) && !IsOperand(TrimSpace(parts[1])))
    ensures var parts := SplitOn(line, '=');
      ParseAssignment(vars, line) == Err(InvalidIdentifier) <==> CountChar(line, '=') == 1 && !IsValidIdentifier(TrimSpace(parts[0]))
    ensures var parts := SplitOn(line, '=');
      ParseAssignment(vars, line) == Err(UnknownVariable) <==>
        && CountChar(line, '=') == 1 && IsValidIdentifier(TrimSpace(parts[0]))
        && ResolveValue(TrimSpace(parts[1]), vars) == Err(UnknownVariable)
  {
    var parts := SplitOn(line, '=');
    assert |parts| == CountChar(line, '=') + 1;
    if |parts| == 2 {
      NumberIsNotIdentifier(TrimSpace(parts[1]));
    }
  }

  /** Every key of the store is an identifier. */
  predicate IdentifierKeys(vars: Store) {
    forall x :: x in vars ==> IsValidIdentifier(x)
  }

  /** `vars[x] = v`: `x` is bound to `v` and every other binding is kept. */
  function Bind(vars: Store, x: string, v: int): (vars': Store)
    ensures vars'.Keys == vars.Keys + {x}
    ensures vars'[x] == v
    ensures forall y :: y in vars && y != x ==> vars'[y] == vars[y]
    ensures IdentifierKeys(vars) && IsValidIdentifier(x) ==> IdentifierKeys(vars')
    ensures StoreInRange(vars) && InInt64(v) ==> StoreInRange(vars')
  {
    vars[x := v]
  }

  /**
   * The store after the assignment: only the left side's binding may
   * change, and a failed assignment changes nothing. Keys stay identifiers
   * and values stay `int`s.
   */
  function Assign(vars: Store, line: string): (vars': Store)
    ensures ParseAssignment(vars, line).Err? ==> vars' == vars
    ensures ParseAssignment(vars, line).Ok? ==>
      var (left, v) := ParseAssignment(vars, line).value;
      && vars'.Keys == vars.Keys + {left}
      && vars'[left] == v
      && forall x :: x in vars && x != left ==> vars'[x] == vars[x]
    ensures IdentifierKeys(vars) ==> IdentifierKeys(vars')
    ensures StoreInRange(vars) ==> StoreInRange(vars')
  {
    var r := ParseAssignment(vars, line);
    if r.Ok? then Bind(vars, r.value.0, r.value.1) else vars
  }

  /** The Go program's global `variables` map and the assignment that updates it. */
  class VariableStore {
    var variables: Store

    /** Every key is an identifier and every value an `int`. */
    predicate Valid()
      reads this
    {
      IdentifierKeys(variables) && StoreInRange(variables)
    }

    /** `make(map[string]int)`. */
    constructor ()
      ensures variables == map[] && Valid()
    {
      variables := map[];
    }

    /**
     * main.go:203-232: on success the identifier is bound (`Ok` carries the
     * value); otherwise the store is left alone and the error names the
     * message printed.
     */
    method HandleAssignment(line: string) returns (outcome: Result<int>)
      requires Valid()
      modifies this
      ensures Valid()
      ensures variables == Assign(old(variables), line)
      ensures outcome.Ok? <==> ParseAssignment(old(variables), line).Ok?
      ensures outcome.Ok? ==> outcome.value == ParseAssignment(old(variables), line).value.1
      ensures outcome.Err? ==> outcome.error == ParseAssignment(old(variables), line).error
    {
      var parts := SplitOn(line, '=');
      if |parts| != 2 {
        return Err(InvalidAssignment);
      }
      var left := TrimSpace(parts[0]);
      var right := TrimSpace(parts[1]);
      if !IsValidIdentifier(left) {
        return Err(InvalidIdentifier);
      }
      if IsNumber(right) {
        var val := Atoi(right).value;
        variables := Bind(variables, left, val);
        return Ok(val);
      }
      if IsValidIdentifier(right) {
        if right !in variables {
          return Err(UnknownVariable);
        }
        var val := variables[right];
        variables := Bind(variables, left, val);
        return Ok(val);
      }
      return Err(InvalidAssignment);
    }
  }

  // ----- examples -----

  /** `name = value` with one space on either side of the `=`. */
  lemma SpacedLine(l: string, r: string)
    requires |l| > 0 && |r| > 0 && '=' !in l && '=' !in r
    requires !IsSpace(l[0]) && !IsSpace(l[|l| - 1]) && !IsSpace(r[0]) && !IsSpace(r[|r| - 1])
    ensures SplitOn(l + " = " + r, '=') == [l + " ", " " + r]
    ensures TrimSpace(l + " ") == l && TrimSpace(" " + r) == r
  {
    assert l + " = " + r == (l + " ") + ['='] + (" " + r);
    SplitOnce(l + " ", " " + r, '=');
    TrimAround([], l, " ");
    assert [] + l + " " == l + " ";
    TrimAround(" ", r, []);
    assert " " + r + [] == " " + r;
  }

  /** How `name = value` is decided, from the two sides alone. */
  lemma SpacedAssignment(vars: Store, l: string, r: string)
    requires |l| > 0 && |r| > 0 && '=' !in l && '=' !in r
    requires !IsSpace(l[0]) && !IsSpace(l[|l| - 1]) && !IsSpace(r[0]) && !IsSpace(r[|r| - 1])
    ensures ParseAssignment(vars, l + " = " + r) ==
      if !IsValidIdentifier(l) then Err(InvalidIdentifier)
      else if IsNumber(r) then Ok((l, Atoi(r).value))
      else if IsValidIdentifier(r) then (if r in vars then Ok((l, vars[r])) else Err(UnknownVariable))
      else Err(InvalidAssignment)
  {
    SpacedLine(l, r);
  }

  /** An identifier holds no white space and no `=`. */
  lemma IdentifierIsWord(x: string)
    requires IsValidIdentifier(x)
    ensures '=' !in x && !IsSpace(x[0]) && !IsSpace(x[|x| - 1])
  {
    assert forall i :: 0 <= i < |x| ==> x[i] != '=' && !IsSpace(x[i]) by {
      forall i | 0 <= i < |x| ensures x[i] != '=' && !IsSpace(x[i]) {
        assert IsLetter(x[i]);
      }
    }
  }

  /** The decimal text of a number holds no white space and no `=`. */
  lemma NumeralIsWord(n: int)
    ensures var t := Itoa(n); |t| > 0 && '=' !in t && !IsSpace(t[0]) && !IsSpace(t[|t| - 1])
  {
    var d := NatToDigits(if n < 0 then -n else n);
    assert forall i :: 0 <= i < |d| ==> IsDigit(d[i]);
    var t := Itoa(n);
    assert forall i :: 0 <= i < |t| ==> t[i] == '-' || IsDigit(t[i]) by {
      if n < 0 {
        forall i | 0 <= i < |t| ensures t[i] == '-' || IsDigit(t[i]) {
          if i > 0 { assert t[i] == d[i - 1]; }
        }
      }
    }
  }

  /** `x = n` binds `x` to the number `n`. */
  lemma NumberAssignment(vars: Store, x: string, n: int)
    requires IsValidIdentifier(x) && InInt64(n)
    ensures ParseAssignment(vars, x + " = " + Itoa(n)) == Ok((x, n))
    ensures Assign(vars, x + " = " + Itoa(n)) == vars[x := n]
  {
    IdentifierIsWord(x);
    NumeralIsWord(n);
    AtoiItoa(n);
    SpacedAssignment(vars, x, Itoa(n));
  }

  /** `y = x` with `x` bound copies the value of `x` into `y`. */
  lemma CopyAssignment(vars: Store, y: string, x: string)
    requires IsValidIdentifier(x) && IsValidIdentifier(y) && x in vars
    ensures ParseAssignment(vars, y + " = " + x) == Ok((y, vars[x]))
    ensures Assign(vars, y + " = " + x) == vars[y := vars[x]]
  {
    IdentifierIsWord(x);
    IdentifierIsWord(y);
    NumberIsNotIdentifier(x);
    SpacedAssignment(vars, y, x);
  }

  /** `x = n` and then `y = x` bind both to `n`. */
  lemma ChainExample(x: string, y: string, n: int)
    requires IsValidIdentifier(x) && IsValidIdentifier(y) && InInt64(n)
    ensures Assign(Assign(map[], x + " = " + Itoa(n)), y + " = " + x) == map[x := n][y := n]
  {
    NumberAssignment(map[], x, n);
    CopyAssignment(map[x := n], y, x);
  }

  /** `x = y` with `y` unbound prints "Unknown variable" and leaves the store alone. */
  lemma UnboundExample(vars: Store, x: string, y: string)
    requires IsValidIdentifier(x) && IsValidIdentifier(y) && y !in vars
    ensures ParseAssignment(vars, x + " = " + y) == Err(UnknownVariable)
    ensures Assign(vars, x + " = " + y) == vars
  {
    IdentifierIsWord(x);
    IdentifierIsWord(y);
    NumberIsNotIdentifier(y);
    SpacedAssignment(vars, x, y);
  }

  /** Two `=` are refused with "Invalid assignment". */
  lemma TwoEqualsExample()
    ensures ParseAssignment(map[], "a = = 1") == Err(InvalidAssignment)
  {
    assert CountChar("a = = 1", '=') == 2;
  }
}
