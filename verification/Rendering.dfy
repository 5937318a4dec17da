/** Filling a template's {placeholders} and splitting the result into a system and a user
    part.
 */
module Rendering {
  import opened TextSearch
  import opened Whitespace

  predicate WordChar(c: char) {
    '0' <= c <= '9' || 'A' <= c <= 'Z' || 'a' <= c <= 'z' || c == '_'
  }

  /** The length of the run of word characters at the front. */
  function RunLength(s: string): (n: nat)
    ensures n <= |s| && forall i :: 0 <= i < n ==> WordChar(s[i])
    ensures n < |s| ==> !WordChar(s[n])
  {
    if s == "" || !WordChar(s[0]) then 0 else 1 + RunLength(s[1..])
  }

  /** What a placeholder stands for; nothing when its key is unknown. */
  function ValueOf(subs: map<string, string>, key: string): string {
    if key in subs then subs[key] else ""
  }

  /** A placeholder at the front of s: its key length, or 0. */
  function KeyAt(s: string): (n: nat)
    ensures n > 0 ==> n + 2 <= |s| && s[0] == '{' && s[n + 1] == '}'
  {
    if s == "" || s[0] != '{' then 0
    else
      var n := RunLength(s[1..]);
      if n + 1 < |s| && s[n + 1] == '}' then n else 0
  }

  /** Leftmost placeholders are replaced, and what replaces them is not looked at again. */
  function Render(s: string, subs: map<string, string>): string
    decreases |s|
  {
    if s == "" then ""
    else
      var n := KeyAt(s);
      if n > 0 then ValueOf(subs, s[1..n + 1]) + Render(s[n + 2..], subs)
      else [s[0]] + Render(s[1..], subs)
  }

  predicate IsKey(k: string) {
    k != "" && forall i :: 0 <= i < |k| ==> WordChar(k[i])
  }

  lemma {:induction false} RunLengthOf(k: string, c: char, rest: string)
    requires !WordChar(c) && forall i :: 0 <= i < |k| ==> WordChar(k[i])
    ensures RunLength(k + [c] + rest) == |k|
  {
    var s := k + [c] + rest;
    if k == "" {
      assert s[0] == c;
    } else {
      RunLengthOf(k[1..], c, rest);
      assert s[0] == k[0] && s[1..] == k[1..] + [c] + rest;
    }
  }

  /** What follows a brace or a non-word character does not change a run before it. */
  lemma {:induction false} RunLengthBefore(a: string, c: char, rest: string)
    requires !WordChar(c)
    ensures RunLength(a + [c] + rest) == RunLength(a)
  {
    var s := a + [c] + rest;
    if a == "" {
      assert s[0] == c;
    } else {
      assert s[0] == a[0];
      if WordChar(a[0]) {
        RunLengthBefore(a[1..], c, rest);
        assert s[1..] == a[1..] + [c] + rest;
      }
    }
  }

  lemma KeyAtBefore(a: string, rest: string)
    requires a != ""
    ensures KeyAt(a + "{" + rest) == KeyAt(a)
  {
    var s := a + "{" + rest;
    assert s[0] == a[0] && s[1..] == a[1..] + "{" + rest;
    RunLengthBefore(a[1..], '{', rest);
    var n := RunLength(a[1..]);
    if n + 1 < |a| {
      assert s[n + 1] == a[n + 1];
    } else {
      assert n + 1 == |a| && s[n + 1] == '{';
    }
  }

  lemma KeyAtOf(k: string, rest: string)
    requires IsKey(k)
    ensures KeyAt("{" + k + "}" + rest) == |k|
    ensures ("{" + k + "}" + rest)[1..|k| + 1] == k && ("{" + k + "}" + rest)[|k| + 2..] == rest
  {
    var s := "{" + k + "}" + rest;
    assert s[1..] == k + "}" + rest;
    RunLengthOf(k, '}', rest);
    assert s[|k| + 1] == '}';
  }

  lemma RenderStep(s: string, subs: map<string, string>)
    ensures s == "" ==> Render(s, subs) == ""
    ensures s != "" && KeyAt(s) > 0 ==> Render(s, subs) == ValueOf(subs, s[1..KeyAt(s) + 1]) + Render(s[KeyAt(s) + 2..], subs)
    ensures s != "" && KeyAt(s) == 0 ==> Render(s, subs) == [s[0]] + Render(s[1..], subs)
  {
  }

  lemma TailBefore(a: string, k: string, b: string, m: nat)
    requires 1 <= m <= |a|
    ensures (a + "{" + k + "}" + b)[m..] == a[m..] + "{" + k + "}" + b
    ensures (a + "{" + k + "}" + b)[..m] == a[..m]
  {
  }

  lemma HeadBefore(a: string, k: string, b: string)
    requires a != ""
    ensures KeyAt(a + "{" + k + "}" + b) == KeyAt(a)
  {
    KeyAtBefore(a, k + "}" + b);
    assert a + "{" + k + "}" + b == a + "{" + (k + "}" + b);
  }

  /** Rendering is compositional around any placeholder, whatever stands on either side. */
  lemma {:induction false} RenderAround(a: string, k: string, b: string, subs: map<string, string>)
    requires IsKey(k)
    ensures Render(a + "{" + k + "}" + b, subs) == Render(a, subs) + (if k in subs then subs[k] else "") + Render(b, subs)
    decreases |a|
  {
    hide Render, KeyAt, IsKey, ValueOf;
    if a == "" {
      RenderAtKey(k, b, subs);
      RenderStep("", subs);
      assert a + "{" + k + "}" + b == "{" + k + "}" + b;
    } else {
      var s := a + "{" + k + "}" + b;
      HeadBefore(a, k, b);
      RenderStep(s, subs);
      RenderStep(a, subs);
      var n := KeyAt(a);
      var m := if n > 0 then n + 2 else 1;
      TailBefore(a, k, b, m);
      assert s[1..m] == s[..m][1..] == a[1..m] && s[0] == s[..m][0] == a[0];
      assert n > 0 ==> s[1..n + 1] == s[1..m][..n] && a[1..n + 1] == a[1..m][..n];
      RenderAround(a[m..], k, b, subs);
    }
  }

  lemma RenderAtKey(k: string, b: string, subs: map<string, string>)
    requires IsKey(k)
    ensures Render("{" + k + "}" + b, subs) == (if k in subs then subs[k] else "") + Render(b, subs)
  {
    hide Render, KeyAt;
    KeyAtOf(k, b);
    RenderStep("{" + k + "}" + b, subs);
  }

  /** A text without an opening brace is left as it is. */
  lemma {:induction false} RenderPlain(s: string, subs: map<string, string>)
    requires '{' !in s
    ensures Render(s, subs) == s
    decreases |s|
  {
    if s != "" {
      assert s[0] in s;
      forall c | c in s[1..] ensures c in s {
      }
      RenderPlain(s[1..], subs);
    }
  }

  // ----- Splitting -----

  const USER := "[USER]"
  const SYSTEM := "[SYSTEM]"

  function SplitSystemUser(rendered: string): (string, string) {
    var idx := Index(rendered, USER);
    if idx >= 0 then
      (TrimSpace(ReplaceFirst(rendered[..idx], SYSTEM, "")), TrimSpace(rendered[idx + |USER|..]))
    else
      (TrimSpace(ReplaceFirst(rendered, SYSTEM, "")), "")
  }

  /** How every shipped template ends: the marker, and the input between two newlines. */
  function WithInput(head: string, input: string): string {
    head + USER + "\n" + input + "\n"
  }

  lemma MarkerAfterHead(head: string, input: string)
    requires head != "" && head[|head| - 1] == '\n' && !Contains(head, USER)
    ensures Index(WithInput(head, input), USER) == |head|
  {
    var s := WithInput(head, input);
    var before, tail := head[..|head| - 1], USER + "\n" + input + "\n";
    assert s == before + "\n" + tail;
    assert s[|head|..|head| + |USER|] == USER;
    forall i | 0 <= i < |head| ensures !OccursAt(USER, s, i) {
      OccursAroundChar(USER, before, '\n', tail, i);
      OccursInPrefix(USER, head, |head| - 1, i);
    }
    IndexIs(s, USER, |head|);
  }

  /** The user part is the trimmed input exactly when the rendered text in front of the
      marker does not itself contain the marker. */
  lemma UserPartExactly(head: string, input: string)
    requires head != "" && head[|head| - 1] == '\n'
    ensures SplitSystemUser(WithInput(head, input)).1 == TrimSpace(input) <==> !Contains(head, USER)
    ensures !Contains(head, USER) ==>
              SplitSystemUser(WithInput(head, input)).0 == TrimSpace(ReplaceFirst(head, SYSTEM, ""))
  {
    hide TrimSpace, ReplaceFirst, Index;
    var s := WithInput(head, input);
    var tail := "\n" + input + "\n";
    assert s == head + USER + tail;
    TrimSpacePadded(input);
    if !Contains(head, USER) {
      MarkerAfterHead(head, input);
      assert s[|head| + |USER|..] == tail && s[..|head|] == head;
    } else {
      EarlyMarker(head, input);
      var idx := Index(s, USER);
      var a := head[idx + |USER|..];
      assert s[idx + |USER|..] == a + ['['] + "USER]" + tail;
      TrimSpaceLonger(a, '[', "USER]", tail);
    }
  }

  lemma EarlyMarker(head: string, input: string)
    requires Contains(head, USER)
    ensures 0 <= Index(WithInput(head, input), USER) <= |head| - |USER|
  {
    var s := WithInput(head, input);
    var i :| OccursAt(USER, head, i);
    assert s[..|head|] == head;
    OccursInPrefix(USER, s, |head|, i);
  }

  // ----- Templates as literals around placeholders -----

  type Key = k: string | IsKey(k) witness "key"

  /** A text that keeps markers apart: it starts and ends with a character the marker does not
      have, and holds no bracket and no brace. */
  type Literal = s: string | Separates(s) witness "\n"

  predicate Separates(s: string) {
    s != "" && s[0] !in USER && s[|s| - 1] !in USER && '[' !in s && '{' !in s
  }

  function Joined(a: Literal, b: Literal): (s: Literal)
    ensures s == a + b
  {
    a + b
  }

  datatype Part = Part(key: Key, literal: Literal)

  /** The template text: `lead`, then each placeholder with the literal behind it. */
  function Flatten(lead: string, parts: seq<Part>): string {
    if parts == [] then lead
    else
      var last := parts[|parts| - 1];
      Flatten(lead, parts[..|parts| - 1]) + "{" + last.key + "}" + last.literal
  }

  /** The same with every placeholder's value in its place. */
  function Filled(lead: string, parts: seq<Part>, subs: map<string, string>): string {
    if parts == [] then lead
    else
      var last := parts[|parts| - 1];
      Filled(lead, parts[..|parts| - 1], subs) + ValueOf(subs, last.key) + last.literal
  }

  /** Rendering fills all placeholders at once. */
  lemma {:induction false} RenderFills(lead: string, parts: seq<Part>, subs: map<string, string>)
    requires '{' !in lead
    ensures Render(Flatten(lead, parts), subs) == Filled(lead, parts, subs)
  {
    hide Render;
    if parts == [] {
      RenderPlain(lead, subs);
    } else {
      var last := parts[|parts| - 1];
      RenderFills(lead, parts[..|parts| - 1], subs);
      RenderAround(Flatten(lead, parts[..|parts| - 1]), last.key, last.literal, subs);
      RenderPlain(last.literal, subs);
    }
  }

  ghost predicate MarkerInValue(parts: seq<Part>, subs: map<string, string>) {
    exists i :: 0 <= i < |parts| && Contains(ValueOf(subs, parts[i].key), USER)
  }

  /** The marker occurs in a filled text exactly when some filled-in value contains it. */
  lemma {:induction false} MarkerOnlyInValues(lead: string, parts: seq<Part>, subs: map<string, string>)
    requires lead != "" && lead[|lead| - 1] !in USER && !Contains(lead, USER)
    ensures Filled(lead, parts, subs) != ""
    ensures Filled(lead, parts, subs)[|Filled(lead, parts, subs)| - 1] !in USER
    ensures Contains(Filled(lead, parts, subs), USER) <==> MarkerInValue(parts, subs)
  {
    hide Contains, ValueOf;
    if parts != [] {
      var n := |parts| - 1;
      MarkerOnlyInValues(lead, parts[..n], subs);
      MarkerAroundValue(Filled(lead, parts[..n], subs), ValueOf(subs, parts[n].key), parts[n].literal);
    }
  }

  lemma MarkerAroundValue(before: string, v: string, lit: string)
    requires before != "" && before[|before| - 1] !in USER && Separates(lit)
    ensures Contains(before + v + lit, USER) <==> Contains(before, USER) || Contains(v, USER)
  {
    var s := before + v + lit;
    var m := |before| - 1;
    var x, c := before[..m], before[m];
    var d, y := lit[0], lit[1..];
    assert s == x + [c] + (v + [d] + y);
    forall i
      ensures OccursAt(USER, s, i) <==> OccursAt(USER, before, i) || OccursAt(USER, v, i - |before|)
    {
      OccursAroundChar(USER, x, c, v + [d] + y, i);
      OccursAroundChar(USER, v, d, y, i - |before|);
      OccursAroundChar(USER, x, c, "", i);
      assert before == x + [c] + "";
      NoFirstChar(USER, y);
      assert !OccursAt(USER, y, i - |before| - |v| - 1);
    }
    if Contains(v, USER) {
      var i :| OccursAt(USER, v, i);
      assert OccursAt(USER, s, i + |before|);
    }
  }
}
