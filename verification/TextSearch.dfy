/** Substring search and first-occurrence replacement, as Go's strings package does them. */
module TextSearch {

  /** `pattern` stands in `s` at index i. */
  predicate OccursAt(pattern: string, s: string, i: int) {
    0 <= i && i + |pattern| <= |s| && s[i..i + |pattern|] == pattern
  }

  ghost predicate Contains(s: string, pattern: string) {
    exists i :: OccursAt(pattern, s, i)
  }

  /** The least index at or after `from` where the pattern stands, or -1. */
  function IndexFrom(s: string, pattern: string, from: nat): (r: int)
    requires from <= |s|
    ensures r == -1 || (from <= r && OccursAt(pattern, s, r))
    ensures forall i :: from <= i && (r == -1 || i < r) ==> !OccursAt(pattern, s, i)
    decreases |s| - from
  {
    if OccursAt(pattern, s, from) then from
    else if from == |s| then -1
    else IndexFrom(s, pattern, from + 1)
  }

  function Index(s: string, pattern: string): (r: int)
    ensures r == -1 || OccursAt(pattern, s, r)
    ensures forall i :: r == -1 || i < r ==> !OccursAt(pattern, s, i)
  {
    IndexFrom(s, pattern, 0)
  }

  function ReplaceFirst(s: string, pattern: string, text: string): string {
    var i := Index(s, pattern);
    if i < 0 then s else s[..i] + text + s[i + |pattern|..]
  }

  lemma IndexIs(s: string, pattern: string, i: int)
    requires OccursAt(pattern, s, i) && forall j :: 0 <= j < i ==> !OccursAt(pattern, s, j)
    ensures Index(s, pattern) == i
  {
  }

  /** A pattern without the character c never stands across a c. */
  lemma OccursAroundChar(pattern: string, a: string, c: char, b: string, i: int)
    requires pattern != "" && c !in pattern
    ensures OccursAt(pattern, a + [c] + b, i) <==>
            OccursAt(pattern, a, i) || OccursAt(pattern, b, i - |a| - 1)
  {
    var s := a + [c] + b;
    var n := |pattern|;
    if 0 <= i && i + n <= |a| {
      assert s[i..i + n] == a[i..i + n];
    }
    if |a| < i && i + n <= |s| {
      assert s[i..i + n] == b[i - |a| - 1..i - |a| - 1 + n];
    }
    if 0 <= i <= |a| < i + n <= |s| {
      assert s[i..i + n][|a| - i] == c != pattern[|a| - i];
    }
  }

  /** What stands in a prefix is what stands in the whole and ends inside the prefix. */
  lemma OccursInPrefix(pattern: string, s: string, n: nat, i: int)
    requires n <= |s|
    ensures OccursAt(pattern, s[..n], i) <==> OccursAt(pattern, s, i) && i + |pattern| <= n
  {
    if 0 <= i && i + |pattern| <= n {
      assert s[..n][i..i + |pattern|] == s[i..i + |pattern|];
    }
  }

  lemma OccursShifted(pattern: string, a: string, b: string, i: int)
    requires i >= |a|
    ensures OccursAt(pattern, a + b, i) <==> OccursAt(pattern, b, i - |a|)
  {
    if i + |pattern| <= |a + b| {
      assert (a + b)[i..i + |pattern|] == b[i - |a|..i - |a| + |pattern|];
    }
  }

  /** A pattern starts with its first character. */
  lemma NoFirstChar(pattern: string, s: string)
    requires pattern != "" && pattern[0] !in s
    ensures !Contains(s, pattern)
  {
    forall i ensures !OccursAt(pattern, s, i) {
      if 0 <= i && i + |pattern| <= |s| {
        assert s[i..i + |pattern|][0] == s[i] && s[i] in s;
      }
    }
  }

  function Itoa(n: nat): (s: string)
    ensures s != "" && forall i :: 0 <= i < |s| ==> '0' <= s[i] <= '9'
  {
    if n < 10 then [('0' as int + n) as char] else Itoa(n / 10) + [('0' as int + n % 10) as char]
  }

  /** The number a string of digits stands for. */
  function NumberOf(s: string): int {
    if s == "" then 0 else 10 * NumberOf(s[..|s| - 1]) + (s[|s| - 1] as int - 48)
  }

  /** Itoa writes the number, without a leading zero. */
  lemma {:induction false} ItoaReadsBack(n: nat)
    ensures NumberOf(Itoa(n)) == n && (n > 0 ==> Itoa(n)[0] != '0')
  {
    if n >= 10 {
      ItoaReadsBack(n / 10);
      assert Itoa(n)[..|Itoa(n)| - 1] == Itoa(n / 10);
    } else {
      assert NumberOf(Itoa(n)[..0]) == 0;
    }
  }
}
