/**
 * `tokenize` (main.go:125-138): a `strings.NewReplacer` that puts a space on
 * both sides of every `( ) + - * / ^`, followed by `strings.Fields`.
 */
module Tokenizer {
  import opened Classifier

  /** The characters the replacer pads with spaces. */
  predicate IsPadded(c: char) {
    c == '(' || c == ')' || c == '+' || c == '-' || c == '*' || c == '/' || c == '^'
  }

  /** The replacer of main.go:127-136: each padded character `c` becomes `" c "`. */
  function Pad(s: string): string {
    if s == [] then [] else (if IsPadded(s[0]) then [' ', s[0], ' '] else [s[0]]) + Pad(s[1..])
  }

  /** Length of the longest prefix of `s` that holds no space. */
  function WordLength(s: string): (n: nat)
    ensures n <= |s|
    ensures forall i :: 0 <= i < n ==> !IsSpace(s[i])
    ensures n < |s| ==> IsSpace(s[n])
  {
    if s == [] || IsSpace(s[0]) then 0 else 1 + WordLength(s[1..])
  }

  /** `strings.Fields`: the maximal runs of non-space characters, in order. */
  function Fields(s: string): seq<string>
    decreases |s|
  {
    if s == [] then []
    else if IsSpace(s[0]) then Fields(s[1..])
    else
      var n := WordLength(s);
      [s[..n]] + Fields(s[n..])
  }

  function Tokenize(expr: string): seq<string> {
    Fields(Pad(expr))
  }

  // ----- reference definitions -----

  /** `s` without its white space. */
  function RemoveSpaces(s: string): string {
    if s == [] then [] else (if IsSpace(s[0]) then [] else [s[0]]) + RemoveSpaces(s[1..])
  }

  function Concat(ts: seq<string>): string {
    if ts == [] then [] else ts[0] + Concat(ts[1..])
  }

  predicate HasNoSpace(t: string) {
    forall i :: 0 <= i < |t| ==> !IsSpace(t[i])
  }

  /** A token holding a padded character is that character and nothing else. */
  predicate PaddedAlone(t: string) {
    (exists i :: 0 <= i < |t| && IsPadded(t[i])) ==> |t| == 1
  }

  /** Every padded character has a space (or an end of the text) on either side. */
  predicate Isolated(u: string) {
    forall i :: 0 <= i < |u| && IsPadded(u[i]) ==>
      (i == 0 || IsSpace(u[i - 1])) && (i + 1 == |u| || IsSpace(u[i + 1]))
  }

  // ----- lemmas about Fields -----

  lemma {:induction false} RemoveSpacesAppend(a: string, b: string)
    ensures RemoveSpaces(a + b) == RemoveSpaces(a) + RemoveSpaces(b)
    decreases |a|
  {
    if a != [] {
      RemoveSpacesAppend(a[1..], b);
      var h := if IsSpace(a[0]) then [] else [a[0]];
      assert (a + b)[0] == a[0] && (a + b)[1..] == a[1..] + b;
      assert RemoveSpaces(a + b) == h + RemoveSpaces(a[1..] + b);
      assert RemoveSpaces(a) == h + RemoveSpaces(a[1..]);
    } else {
      assert a + b == b;
    }
  }

  lemma {:induction false} RemoveSpacesOfWord(t: string)
    requires HasNoSpace(t)
    ensures RemoveSpaces(t) == t
    decreases |t|
  {
    if t != [] {
      RemoveSpacesOfWord(t[1..]);
    }
  }

  /** Fields yields non-empty, space-free words that spell the text without its spaces. */
  lemma {:induction false} FieldsSpec(s: string)
    ensures forall t :: t in Fields(s) ==> |t| > 0 && HasNoSpace(t)
    ensures Concat(Fields(s)) == RemoveSpaces(s)
    decreases |s|
  {
    if s != [] {
      if IsSpace(s[0]) {
        FieldsSpec(s[1..]);
      } else {
        var n := WordLength(s);
        FieldsSpec(s[n..]);
        assert s == s[..n] + s[n..];
        RemoveSpacesAppend(s[..n], s[n..]);
        RemoveSpacesOfWord(s[..n]);
        var fs := Fields(s);
        assert fs[1..] == Fields(s[n..]);
      }
    }
  }

  lemma {:induction false} FieldsOfIsolated(u: string)
    requires Isolated(u)
    ensures forall t :: t in Fields(u) ==> PaddedAlone(t)
    decreases |u|
  {
    if u != [] {
      var k := if IsSpace(u[0]) then 1 else WordLength(u);
      var rest := u[k..];
      assert Isolated(rest) by {
        forall j | 0 <= j < |rest| && IsPadded(rest[j])
          ensures (j == 0 || IsSpace(rest[j - 1])) && (j + 1 == |rest| || IsSpace(rest[j + 1]))
        {
          assert rest[j] == u[k + j];
          if j > 0 { assert rest[j - 1] == u[k + j - 1]; }
          if j + 1 < |rest| { assert rest[j + 1] == u[k + j + 1]; }
        }
      }
      FieldsOfIsolated(rest);
      if !IsSpace(u[0]) {
        var w := u[..k];
        PaddedAtWordEdges(u, k);
        forall i | 0 <= i < |w| && IsPadded(w[i]) ensures |w| == 1 {
          assert w[i] == u[i];
        }
        assert PaddedAlone(w);
        var fs := Fields(u);
        assert fs == [w] + Fields(rest);
      }
    }
  }

  /** Inside a word of an isolated text, no padded character has a neighbour in the word. */
  lemma PaddedAtWordEdges(u: string, k: nat)
    requires Isolated(u) && k <= |u|
    requires forall j :: 0 <= j < k ==> !IsSpace(u[j])
    ensures forall j :: 0 < j < k ==> !IsPadded(u[j])
    ensures forall j :: 0 <= j < k - 1 ==> !IsPadded(u[j])
  {
    forall j | 0 < j < k ensures !IsPadded(u[j]) {
      assert !IsSpace(u[j - 1]);
    }
    forall j | 0 <= j < k - 1 ensures !IsPadded(u[j]) {
      assert !IsSpace(u[j + 1]);
    }
  }

  lemma {:induction false} WordLengthOf(w: string, rest: string)
    requires HasNoSpace(w) && (rest == [] || IsSpace(rest[0]))
    ensures WordLength(w + rest) == |w|
    decreases |w|
  {
    if w == [] {
      assert w + rest == rest;
    } else {
      assert (w + rest)[1..] == w[1..] + rest;
      WordLengthOf(w[1..], rest);
    }
  }

  /** A word followed by white space or the end is the next field. */
  lemma FieldsWord(w: string, rest: string)
    requires |w| > 0 && HasNoSpace(w) && (rest == [] || IsSpace(rest[0]))
    ensures Fields(w + rest) == [w] + Fields(rest)
  {
    WordLengthOf(w, rest);
    assert (w + rest)[..|w|] == w && (w + rest)[|w|..] == rest;
  }

  /** White space before the text adds no field. */
  lemma {:induction false} FieldsSpaces(sp: string, s: string)
    requires forall i :: 0 <= i < |sp| ==> IsSpace(sp[i])
    ensures Fields(sp + s) == Fields(s)
    decreases |sp|
  {
    if sp == [] {
      assert sp + s == s;
    } else {
      assert (sp + s)[1..] == sp[1..] + s;
      FieldsSpaces(sp[1..], s);
    }
  }

  // ----- lemmas about Pad -----

  lemma {:induction false} PadRemoveSpaces(s: string)
    ensures RemoveSpaces(Pad(s)) == RemoveSpaces(s)
    decreases |s|
  {
    if s != [] {
      var head := if IsPadded(s[0]) then [' ', s[0], ' '] else [s[0]];
      assert Pad(s) == head + Pad(s[1..]);
      assert s == [s[0]] + s[1..];
      calc {
        RemoveSpaces(Pad(s));
        { RemoveSpacesAppend(head, Pad(s[1..])); }
        RemoveSpaces(head) + RemoveSpaces(Pad(s[1..]));
        { PadRemoveSpaces(s[1..]); PaddedHeadSpaces(s[0]); }
        RemoveSpaces([s[0]]) + RemoveSpaces(s[1..]);
        { RemoveSpacesAppend([s[0]], s[1..]); }
        RemoveSpaces(s);
      }
    }
  }

  /** The spaces put around one character are white space only. */
  lemma PaddedHeadSpaces(c: char)
    ensures RemoveSpaces(if IsPadded(c) then [' ', c, ' '] else [c]) == RemoveSpaces([c])
  {
    if IsPadded(c) {
      var h := [' ', c, ' '];
      assert RemoveSpaces([' ']) == [] by { assert [' '][1..] == []; }
      assert RemoveSpaces([c, ' ']) == [c] by { assert [c, ' '][1..] == [' ']; }
      assert RemoveSpaces(h) == [c] by { assert h[1..] == [c, ' ']; }
      assert RemoveSpaces([c]) == [c] by { assert [c][1..] == []; }
    }
  }

  /** Pad(s) never begins or ends with a padded character. */
  lemma {:induction false} PadEnds(s: string)
    requires s != []
    ensures |Pad(s)| > 0 && !IsPadded(Pad(s)[0]) && !IsPadded(Pad(s)[|Pad(s)| - 1])
    decreases |s|
  {
    if |s| > 1 {
      PadEnds(s[1..]);
    }
  }

  lemma {:induction false} PadIsolated(s: string)
    ensures Isolated(Pad(s))
    decreases |s|
  {
    if s != [] {
      var head := if IsPadded(s[0]) then [' ', s[0], ' '] else [s[0]];
      var tail := Pad(s[1..]);
      PadIsolated(s[1..]);
      var u := Pad(s);
      assert u == head + tail;
      if tail != [] { PadEnds(s[1..]); }
      forall i | 0 <= i < |u| && IsPadded(u[i])
        ensures (i == 0 || IsSpace(u[i - 1])) && (i + 1 == |u| || IsSpace(u[i + 1]))
      {
        if i >= |head| {
          var j := i - |head|;
          assert u[i] == tail[j];
          assert j > 0 && j + 1 < |tail|;
          assert u[i - 1] == tail[j - 1] && u[i + 1] == tail[j + 1];
        }
      }
    }
  }

  lemma {:induction false} PadAppend(x: string, y: string)
    ensures Pad(x + y) == Pad(x) + Pad(y)
    decreases |x|
  {
    if x == [] {
      assert x + y == y;
    } else {
      assert (x + y)[0] == x[0] && (x + y)[1..] == x[1..] + y;
      PadAppend(x[1..], y);
    }
  }

  /** A word with no white space and nothing to pad. */
  predicate IsPlainWord(w: string) {
    |w| > 0 && forall i :: 0 <= i < |w| ==> !IsSpace(w[i]) && !IsPadded(w[i])
  }

  lemma {:induction false} PadPlain(w: string)
    requires forall i :: 0 <= i < |w| ==> !IsPadded(w[i])
    ensures Pad(w) == w
    decreases |w|
  {
    if w != [] {
      PadPlain(w[1..]);
      assert w == [w[0]] + w[1..];
    }
  }

  /** A plain word is one token. */
  lemma TokenizePlain(w: string)
    requires IsPlainWord(w)
    ensures Tokenize(w) == [w]
  {
    PadPlain(w);
    FieldsWord(w, []);
    assert w + [] == w;
  }

  lemma PadCons(w: string, o: char, rest: string)
    requires IsPlainWord(w) && IsPadded(o)
    ensures Pad(w + " " + [o] + " " + rest) == w + ("  " + ([o] + ("  " + Pad(rest))))
  {
    assert w + " " + [o] + " " + rest == w + (" " + ([o] + (" " + rest)));
    PadAppend(w, " " + ([o] + (" " + rest)));
    PadPlain(w);
    PadSpaced(o, rest);
  }

  /** A padded character between single spaces gets two spaces on each side. */
  lemma PadSpaced(o: char, rest: string)
    requires IsPadded(o)
    ensures Pad(" " + ([o] + (" " + rest))) == "  " + ([o] + ("  " + Pad(rest)))
  {
    var r1 := " " + rest;
    var r2 := [o] + r1;
    assert Pad(r1) == " " + Pad(rest) by {
      assert r1[0] == ' ' && r1[1..] == rest;
    }
    assert Pad(r2) == " " + [o] + " " + Pad(r1) by {
      assert r2[0] == o && r2[1..] == r1;
    }
    assert Pad(" " + r2) == " " + Pad(r2) by {
      assert (" " + r2)[0] == ' ' && (" " + r2)[1..] == r2;
    }
  }

  /** `w o rest` with single spaces: the word, the operator, then the tokens of `rest`. */
  lemma TokenizeCons(w: string, o: char, rest: string)
    requires IsPlainWord(w) && IsPadded(o)
    ensures Tokenize(w + " " + [o] + " " + rest) == [w, [o]] + Tokenize(rest)
  {
    var tail := "  " + Pad(rest);
    calc {
      Tokenize(w + " " + [o] + " " + rest);
      { PadCons(w, o, rest); }
      Fields(w + ("  " + ([o] + tail)));
      { FieldsWord(w, "  " + ([o] + tail)); }
      [w] + Fields("  " + ([o] + tail));
      { FieldsSpaces("  ", [o] + tail); }
      [w] + Fields([o] + tail);
      { FieldsWord([o], tail); }
      [w] + ([[o]] + Fields(tail));
      { FieldsSpaces("  ", Pad(rest)); }
      [w, [o]] + Tokenize(rest);
    }
  }

  /** A padded character at the front is a token of its own. */
  lemma TokenizePadded(o: char, rest: string)
    requires IsPadded(o)
    ensures Tokenize([o] + rest) == [[o]] + Tokenize(rest)
  {
    assert Pad([o] + rest) == " " + ([o] + (" " + Pad(rest))) by {
      assert ([o] + rest)[0] == o && ([o] + rest)[1..] == rest;
    }
    calc {
      Fields(" " + ([o] + (" " + Pad(rest))));
      { FieldsSpaces(" ", [o] + (" " + Pad(rest))); }
      Fields([o] + (" " + Pad(rest)));
      { FieldsWord([o], " " + Pad(rest)); }
      [[o]] + Fields(" " + Pad(rest));
      { FieldsSpaces(" ", Pad(rest)); }
      [[o]] + Tokenize(rest);
    }
  }

  /** A plain word followed by a space is a token of its own. */
  lemma TokenizeWord(w: string, rest: string)
    requires IsPlainWord(w)
    ensures Tokenize(w + (" " + rest)) == [w] + Tokenize(rest)
  {
    assert Pad(w + (" " + rest)) == w + (" " + Pad(rest)) by {
      PadAppend(w, " " + rest);
      PadPlain(w);
      assert (" " + rest)[0] == ' ' && (" " + rest)[1..] == rest;
    }
    calc {
      Fields(w + (" " + Pad(rest)));
      { FieldsWord(w, " " + Pad(rest)); }
      [w] + Fields(" " + Pad(rest));
      { FieldsSpaces(" ", Pad(rest)); }
      [w] + Tokenize(rest);
    }
  }

  /** White space at the front makes no token. */
  lemma TokenizeSpace(rest: string)
    ensures Tokenize(" " + rest) == Tokenize(rest)
  {
    assert Pad(" " + rest) == " " + Pad(rest) by {
      assert (" " + rest)[0] == ' ' && (" " + rest)[1..] == rest;
    }
    FieldsSpaces(" ", Pad(rest));
  }

  // ----- what tokenize promises -----

  /**
   * Tokens are non-empty and hold no white space; every operator or
   * parenthesis is a token of its own; and the tokens spell out the
   * expression with its white space removed.
   */
  lemma TokenizeSpec(expr: string)
    ensures forall t :: t in Tokenize(expr) ==> |t| > 0 && HasNoSpace(t)
    ensures forall t :: t in Tokenize(expr) ==> PaddedAlone(t)
    ensures Concat(Tokenize(expr)) == RemoveSpaces(expr)
  {
    FieldsSpec(Pad(expr));
    PadIsolated(expr);
    FieldsOfIsolated(Pad(expr));
    PadRemoveSpaces(expr);
  }
}
