/** Trimming and splitting around white space. Strings are sequences of Unicode characters. */
module Whitespace {

  /** The characters with Unicode's White_Space property. */
  predicate IsSpace(c: char) {
    var n := c as int;
    || 0x09 <= n <= 0x0D || n == 0x20 || n == 0x85 || n == 0xA0 || n == 0x1680
    || 0x2000 <= n <= 0x200A || n == 0x2028 || n == 0x2029 || n == 0x202F || n == 0x205F || n == 0x3000
  }

  function TrimLeft(s: string): (t: string)
    ensures |t| <= |s| && t == s[|s| - |t|..]
    ensures t != "" ==> !IsSpace(t[0])
    ensures forall i :: 0 <= i < |s| - |t| ==> IsSpace(s[i])
  {
    if s != "" && IsSpace(s[0]) then TrimLeft(s[1..]) else s
  }

  function TrimRight(s: string): (t: string)
    ensures t <= s
    ensures t != "" ==> !IsSpace(t[|t| - 1])
  {
    if s != "" && IsSpace(s[|s| - 1]) then TrimRight(s[..|s| - 1]) else s
  }

  function TrimSpace(s: string): string {
    TrimLeft(TrimRight(s))
  }

  /** Nothing in front of a visible character matters to the right end. */
  lemma {:induction false} TrimRightStops(a: string, c: char, b: string)
    requires !IsSpace(c)
    ensures TrimRight(a + [c] + b) == a + [c] + TrimRight(b)
  {
    hide IsSpace;
    var s := a + [c] + b;
    if b == "" {
      assert s[|s| - 1] == c;
    } else if IsSpace(b[|b| - 1]) {
      TrimRightStops(a, c, b[..|b| - 1]);
      assert s == (a + [c] + b[..|b| - 1]) + [b[|b| - 1]];
      TrimRightBack(a + [c] + b[..|b| - 1], b[|b| - 1]);
    } else {
      assert s[|s| - 1] == b[|b| - 1];
    }
  }

  lemma TrimLeftStops(a: string, c: char, b: string)
    requires !IsSpace(c)
    ensures |TrimLeft(a + [c] + b)| >= 1 + |b|
  {
    hide IsSpace;
    assert (a + [c] + b)[|a|] == c;
  }

  lemma {:induction false} TrimRightFront(c: char, s: string)
    requires IsSpace(c)
    ensures TrimRight([c] + s) == if TrimRight(s) == "" then "" else [c] + TrimRight(s)
  {
    var t := [c] + s;
    if s == "" {
      assert t[..0] == "";
    } else if IsSpace(s[|s| - 1]) {
      TrimRightFront(c, s[..|s| - 1]);
      assert t[..|t| - 1] == [c] + s[..|s| - 1];
    }
  }

  /** Surrounding newlines make no difference. */
  lemma TrimSpacePadded(s: string)
    ensures TrimSpace("\n" + s + "\n") == TrimSpace(s)
  {
    TrimRightBack("\n" + s, '\n');
    TrimRightFront('\n', s);
    TrimLeftFront('\n', TrimRight(s));
    hide TrimRight, TrimLeft;
    assert TrimRight("\n" + s + "\n") == TrimRight("\n" + s);
  }

  lemma TrimRightBack(s: string, c: char)
    requires IsSpace(c)
    ensures TrimRight(s + [c]) == TrimRight(s)
  {
    var t := s + [c];
    assert t[|t| - 1] == c && t[..|t| - 1] == s;
  }

  lemma TrimLeftFront(c: char, s: string)
    requires IsSpace(c)
    ensures TrimLeft([c] + s) == TrimLeft(s)
  {
    assert ([c] + s)[0] == c && ([c] + s)[1..] == s;
  }

  /** A text that has something visible in front of `s` trims to something longer. */
  lemma TrimSpaceLonger(a: string, c: char, b: string, s: string)
    requires !IsSpace(c)
    ensures |TrimSpace(a + [c] + b + s)| > |TrimSpace(s)|
  {
    assert a + [c] + b + s == a + [c] + (b + s);
    TrimRightStops(a, c, b + s);
    TrimLeftStops(a, c, TrimRight(b + s));
    TrimRightGrows(b, s);
  }

  lemma {:induction false} TrimRightGrows(b: string, s: string)
    ensures |TrimRight(s)| <= |TrimRight(b + s)|
  {
    if s != "" && IsSpace(s[|s| - 1]) {
      TrimRightGrows(b, s[..|s| - 1]);
      assert (b + s)[..|b + s| - 1] == b + s[..|s| - 1];
    }
  }

  // ----- Splitting into words -----

  /** The length of the visible run at the front. */
  function WordLength(s: string): (n: nat)
    ensures n <= |s| && forall i :: 0 <= i < n ==> !IsSpace(s[i])
    ensures n < |s| ==> IsSpace(s[n])
  {
    if s == "" || IsSpace(s[0]) then 0 else 1 + WordLength(s[1..])
  }

  function Fields(s: string): (words: seq<string>)
    ensures forall w :: w in words ==> IsWord(w)
    decreases |s|
  {
    var t := TrimLeft(s);
    if t == "" then []
    else
      var n := WordLength(t);
      [t[..n]] + Fields(t[n..])
  }

  predicate IsWord(w: string) {
    w != "" && forall i :: 0 <= i < |w| ==> !IsSpace(w[i])
  }

  /** The words, each followed by a space. */
  function Spaced(words: seq<string>): string {
    if words == [] then "" else words[0] + " " + Spaced(words[1..])
  }

  lemma {:induction false} WordLengthOf(w: string, c: char, rest: string)
    requires IsSpace(c) && forall i :: 0 <= i < |w| ==> !IsSpace(w[i])
    ensures WordLength(w + [c] + rest) == |w|
  {
    var s := w + [c] + rest;
    if w != "" {
      assert s[0] == w[0] && s[1..] == w[1..] + [c] + rest;
      WordLengthOf(w[1..], c, rest);
    } else {
      assert s[0] == c;
    }
  }

  lemma FieldsOfWord(w: string, rest: string)
    requires IsWord(w)
    ensures Fields(w + " " + rest) == [w] + Fields(rest)
  {
    var s := w + " " + rest;
    assert s[0] == w[0] && TrimLeft(s) == s;
    WordLengthOf(w, ' ', rest);
    assert s[..|w|] == w && s[|w|..] == " " + rest;
    assert (" " + rest)[1..] == rest;
    assert TrimLeft(" " + rest) == TrimLeft(rest);
  }

  /** Splitting gives back exactly the words that were spaced out. */
  lemma {:induction false} FieldsOfSpaced(words: seq<string>)
    requires forall w :: w in words ==> IsWord(w)
    ensures Fields(Spaced(words)) == words
  {
    hide Fields, IsWord;
    if words == [] {
      FieldsStep("");
    } else {
      assert words[0] in words;
      FieldsOfWord(words[0], Spaced(words[1..]));
      FieldsOfSpaced(words[1..]);
    }
  }

  lemma {:induction false} WordLengthAll(w: string)
    requires forall i :: 0 <= i < |w| ==> !IsSpace(w[i])
    ensures WordLength(w) == |w|
  {
    if w != "" {
      WordLengthAll(w[1..]);
    }
  }

  /** A text that is one word splits into that word. */
  lemma FieldsOfOneWord(w: string)
    requires IsWord(w)
    ensures Fields(w) == [w]
  {
    WordLengthAll(w);
    assert TrimLeft(w) == w && w[..|w|] == w && w[|w|..] == "";
    FieldsStep("");
  }

  lemma FrontOff(a: string, c: char, b: string)
    requires a != "" && IsSpace(a[0])
    ensures TrimLeft(a) == TrimLeft(a[1..]) && TrimLeft(a + [c] + b) == TrimLeft(a[1..] + [c] + b)
  {
    hide *;
    assert a + [c] + b == [a[0]] + (a[1..] + [c] + b) && a == [a[0]] + a[1..];
    TrimLeftFront(a[0], a[1..]);
    TrimLeftFront(a[0], a[1..] + [c] + b);
  }

  lemma {:induction false} TrimLeftAround(a: string, c: char, b: string)
    requires TrimLeft(a) != ""
    ensures TrimLeft(a + [c] + b) == TrimLeft(a) + [c] + b
    decreases |a|
  {
    hide *;
    if IsSpace(a[0]) {
      FrontOff(a, c, b);
      TrimLeftAround(a[1..], c, b);
    } else {
      assert (a + [c] + b)[0] == a[0];
    }
  }

  lemma {:induction false} TrimLeftThrough(a: string, c: char, b: string)
    requires TrimLeft(a) == "" && IsSpace(c)
    ensures TrimLeft(a + [c] + b) == TrimLeft(b)
    decreases |a|
  {
    hide IsSpace;
    if a == "" {
      assert a + [c] + b == [c] + b;
      TrimLeftFront(c, b);
    } else {
      hide *;
      FrontOff(a, c, b);
      TrimLeftThrough(a[1..], c, b);
    }
  }

  lemma FieldsTrimmed(s: string)
    ensures TrimLeft(TrimLeft(s)) == TrimLeft(s)
    ensures Fields(s) == Fields(TrimLeft(s))
  {
  }

  lemma {:induction false} WordLengthAround(a: string, c: char, b: string)
    requires IsSpace(c)
    ensures WordLength(a + [c] + b) == WordLength(a)
    decreases |a|
  {
    var s := a + [c] + b;
    if a == "" {
      assert s[0] == c;
    } else {
      assert s[0] == a[0] && s[1..] == a[1..] + [c] + b;
      WordLengthAround(a[1..], c, b);
    }
  }

  /** The first word of a text that starts with one, and the rest. */
  lemma FieldsStep(t: string)
    requires TrimLeft(t) == t
    ensures if t == "" then Fields(t) == [] else WordLength(t) > 0 && Fields(t) == [t[..WordLength(t)]] + Fields(t[WordLength(t)..])
  {
  }

  lemma WordAround(t: string, c: char, b: string)
    requires t != "" && TrimLeft(t) == t && IsSpace(c)
    ensures TrimLeft(t + [c] + b) == t + [c] + b
    ensures Fields(t + [c] + b) == [t[..WordLength(t)]] + Fields(t[WordLength(t)..] + [c] + b)
  {
    hide Fields, IsSpace, TrimLeft;
    var n, s := WordLength(t), t + [c] + b;
    TrimLeftAround(t, c, b);
    WordLengthAround(t, c, b);
    FieldsStep(s);
    assert s[..n] == t[..n] && s[n..] == t[n..] + [c] + b;
  }

  /** The first word of a text, and what is behind it. */
  lemma FirstWord(a: string) returns (w: string, rest: string)
    requires TrimLeft(a) != ""
    ensures |rest| < |a| && TrimLeft(a) == w + rest && Fields(a) == [w] + Fields(rest)
    ensures forall c, b :: IsSpace(c) ==> Fields(a + [c] + b) == [w] + Fields(rest + [c] + b)
  {
    hide Fields, TrimLeft, WordLength, IsSpace;
    var t := TrimLeft(a);
    FieldsTrimmed(a);
    FieldsStep(t);
    w, rest := t[..WordLength(t)], t[WordLength(t)..];
    forall c, b | IsSpace(c) ensures Fields(a + [c] + b) == [w] + Fields(rest + [c] + b) {
      TrimLeftAround(a, c, b);
      FieldsTrimmed(a + [c] + b);
      WordAround(t, c, b);
    }
  }

  /** White space separates: on either side of it a text splits by itself. With single words
      splitting into themselves, and the empty text into none, this leaves nothing open. */
  lemma {:induction false} FieldsAroundSpace(a: string, c: char, b: string)
    requires IsSpace(c)
    ensures Fields(a + [c] + b) == Fields(a) + Fields(b)
    decreases |a|
  {
    hide *;
    if TrimLeft(a) == "" {
      BlankFront(a, c, b);
    } else {
      var w, rest := FirstWord(a);
      FieldsAroundSpace(rest, c, b);
    }
  }

  lemma BlankFront(a: string, c: char, b: string)
    requires IsSpace(c) && TrimLeft(a) == ""
    ensures Fields(a + [c] + b) == Fields(a) + Fields(b)
  {
    FieldsStep("");
    hide *;
    TrimLeftThrough(a, c, b);
    FieldsTrimmed(a);
    FieldsTrimmed(a + [c] + b);
    FieldsTrimmed(b);
  }

  // ----- Visible characters -----

  /** The characters that are not white space, in order. */
  function Visible(s: string): string {
    if s == "" then ""
    else Visible(s[..|s| - 1]) + (if IsSpace(s[|s| - 1]) then "" else [s[|s| - 1]])
  }

  lemma {:induction false} VisibleConcat(a: string, b: string)
    ensures Visible(a + b) == Visible(a) + Visible(b)
    decreases |b|
  {
    if b == "" {
      assert a + b == a;
    } else {
      VisibleConcat(a, b[..|b| - 1]);
      assert (a + b)[..|a + b| - 1] == a + b[..|b| - 1];
    }
  }

  lemma {:induction false} VisibleBlank(s: string)
    requires forall i :: 0 <= i < |s| ==> IsSpace(s[i])
    ensures Visible(s) == ""
  {
    if s != "" {
      VisibleBlank(s[..|s| - 1]);
    }
  }

  lemma VisibleTrimmed(s: string)
    ensures Visible(TrimLeft(s)) == Visible(s)
  {
    hide Visible, IsSpace;
    var t := TrimLeft(s);
    var front := s[..|s| - |t|];
    assert s == front + t;
    VisibleBlank(front);
    VisibleConcat(front, t);
  }

  lemma SpaceIsBlank()
    ensures Visible(" ") == ""
  {
    assert " "[..0] == "";
  }

  lemma SpacedStep(w: string, rest: seq<string>)
    ensures Visible(Spaced([w] + rest)) == Visible(w) + Visible(Spaced(rest))
  {
    hide Visible;
    assert ([w] + rest)[1..] == rest;
    VisibleConcat(w + " ", Spaced(rest));
    VisibleConcat(w, " ");
    SpaceIsBlank();
  }

  /** Nothing visible is lost or moved by splitting and spacing out again. */
  lemma {:induction false} SpacedShowsAll(s: string)
    ensures Visible(Spaced(Fields(s))) == Visible(s)
    decreases |s|
  {
    VisibleTrimmed(s);
    if TrimLeft(s) == "" {
      assert Fields(s) == [];
    } else {
      hide *;
      var w, rest := FirstWord(s);
      SpacedShowsAll(rest);
      SpacedStep(w, Fields(rest));
      VisibleConcat(w, rest);
    }
  }

  // ----- Trimming, without the recursion -----

  predicate Blank(s: string) {
    forall i :: 0 <= i < |s| ==> IsSpace(s[i])
  }

  /** Trimming takes exactly the white space off both ends. */
  lemma TrimSpaceExactly(a: string, s: string, b: string)
    requires Blank(a) && Blank(b)
    requires s != "" ==> !IsSpace(s[0]) && !IsSpace(s[|s| - 1])
    ensures TrimSpace(a + s + b) == s
  {
    hide IsSpace;
    if s == "" {
      var t := a + s + b;
      assert t == "" + t;
      TrimRightBlank("", t);
    } else {
      TrimRightBlank(a + s, b);
      TrimRightKeeps(a + s);
      TrimLeftBlank(a, s);
    }
  }

  lemma {:induction false} TrimRightBlank(s: string, b: string)
    requires Blank(b)
    ensures TrimRight(s + b) == TrimRight(s)
    decreases |b|
  {
    if b == "" {
      assert s + b == s;
    } else {
      assert (s + b)[..|s + b| - 1] == s + b[..|b| - 1];
      TrimRightBlank(s, b[..|b| - 1]);
    }
  }

  lemma TrimRightKeeps(s: string)
    requires s != "" && !IsSpace(s[|s| - 1])
    ensures TrimRight(s) == s
  {
  }

  lemma {:induction false} TrimLeftBlank(a: string, s: string)
    requires Blank(a) && (s != "" ==> !IsSpace(s[0]))
    ensures TrimLeft(a + s) == s
    decreases |a|
  {
    if a == "" {
      assert a + s == s;
    } else {
      assert (a + s)[1..] == a[1..] + s;
      TrimLeftBlank(a[1..], s);
    }
  }
}
