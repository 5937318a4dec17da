/** Fallback chains: the backends of each model, most preferred first. A chain holds indices
    into the configured list.
 */
module Fallback {
  import opened Backends

  /** Priority 0 means "unset" and is read as 2^31 - 1. */
  const UNSET_PRIORITY := 2147483647

  function EffectivePriority(b: Backend): int {
    if b.priority == 0 then UNSET_PRIORITY else b.priority
  }

  /** Backend i is preferred to backend j: lower effective priority, ties in list order. */
  predicate Preferred(cfg: seq<Backend>, i: nat, j: nat)
    requires i < |cfg| && j < |cfg|
  {
    var pi, pj := EffectivePriority(cfg[i]), EffectivePriority(cfg[j]);
    pi < pj || (pi == pj && i < j)
  }

  predicate InRange(cfg: seq<Backend>, c: seq<nat>) {
    forall k :: 0 <= k < |c| ==> c[k] < |cfg|
  }

  predicate Ordered(cfg: seq<Backend>, c: seq<nat>)
    requires InRange(cfg, c)
  {
    forall k, l :: 0 <= k < l < |c| ==> Preferred(cfg, c[k], c[l])
  }

  /** c is the chain of a model: its backends, each once, in order of preference. */
  predicate IsChain(cfg: seq<Backend>, model: string, c: seq<nat>) {
    && InRange(cfg, c)
    && Ordered(cfg, c)
    && (forall k :: 0 <= k < |c| ==> cfg[c[k]].model == model)
    && (forall i :: 0 <= i < |cfg| && cfg[i].model == model ==> i in c)
  }

  // ----- Stable sorting of one group -----

  /** Puts backend i into a sorted list, behind everything of equal priority. */
  function Insert(cfg: seq<Backend>, c: seq<nat>, i: nat): seq<nat>
    requires InRange(cfg, c) && i < |cfg|
  {
    if c == [] || EffectivePriority(cfg[c[|c| - 1]]) <= EffectivePriority(cfg[i]) then c + [i]
    else Insert(cfg, c[..|c| - 1], i) + [c[|c| - 1]]
  }

  /** The stable sort by effective priority. */
  function StableSort(cfg: seq<Backend>, group: seq<nat>): (c: seq<nat>)
    requires InRange(cfg, group)
    ensures InRange(cfg, c)
  {
    if group == [] then []
    else
      var sorted := StableSort(cfg, group[..|group| - 1]);
      InsertKeeps(cfg, sorted, group[|group| - 1]);
      Insert(cfg, sorted, group[|group| - 1])
  }

  lemma {:induction false} InsertKeeps(cfg: seq<Backend>, c: seq<nat>, i: nat)
    requires InRange(cfg, c) && i < |cfg|
    ensures InRange(cfg, Insert(cfg, c, i))
    ensures forall j :: j in Insert(cfg, c, i) <==> j in c || j == i
  {
    if c != [] && EffectivePriority(cfg[c[|c| - 1]]) > EffectivePriority(cfg[i]) {
      InsertKeeps(cfg, c[..|c| - 1], i);
      assert c == c[..|c| - 1] + [c[|c| - 1]];
    }
  }

  lemma {:induction false} InsertOrders(cfg: seq<Backend>, c: seq<nat>, i: nat)
    requires InRange(cfg, c) && i < |cfg| && Ordered(cfg, c)
    requires forall k :: 0 <= k < |c| ==> c[k] < i
    ensures InRange(cfg, Insert(cfg, c, i)) && Ordered(cfg, Insert(cfg, c, i))
  {
    InsertKeeps(cfg, c, i);
    var d := Insert(cfg, c, i);
    if c == [] || EffectivePriority(cfg[c[|c| - 1]]) <= EffectivePriority(cfg[i]) {
      forall k, l | 0 <= k < l < |d| ensures Preferred(cfg, d[k], d[l]) {
        if l == |c| && k < |c| - 1 {
          assert Preferred(cfg, c[k], c[|c| - 1]);
        }
      }
    } else {
      var before, last := c[..|c| - 1], c[|c| - 1];
      InsertOrders(cfg, before, i);
      InsertKeeps(cfg, before, i);
      var e := Insert(cfg, before, i);
      forall k, l | 0 <= k < l < |d| ensures Preferred(cfg, d[k], d[l]) {
        if l == |e| {
          assert d[k] == e[k] && e[k] in e;
        } else {
          assert d[k] == e[k] && d[l] == e[l];
        }
      }
    }
  }

  predicate Increasing(group: seq<nat>) {
    forall k, l :: 0 <= k < l < |group| ==> group[k] < group[l]
  }

  lemma {:induction false} StableSortOrders(cfg: seq<Backend>, group: seq<nat>)
    requires InRange(cfg, group) && Increasing(group)
    ensures Ordered(cfg, StableSort(cfg, group))
    ensures forall j :: j in StableSort(cfg, group) <==> j in group
  {
    if group != [] {
      var before, last := group[..|group| - 1], group[|group| - 1];
      var sorted := StableSort(cfg, before);
      StableSortOrders(cfg, before);
      InsertKeeps(cfg, sorted, last);
      forall k | 0 <= k < |sorted| ensures sorted[k] < last {
        assert sorted[k] in sorted;
      }
      InsertOrders(cfg, sorted, last);
      assert group == before + [last];
    }
  }

  // ----- Building all chains -----

  /** The backends of a model among the first n, in list order. */
  function Group(cfg: seq<Backend>, model: string, n: nat): (g: seq<nat>)
    requires n <= |cfg|
    ensures InRange(cfg, g) && forall k :: 0 <= k < |g| ==> g[k] < n
    ensures Increasing(g)
    ensures forall i :: 0 <= i < |cfg| ==> (i in g <==> i < n && cfg[i].model == model)
  {
    if n == 0 then []
    else if cfg[n - 1].model == model then Group(cfg, model, n - 1) + [n - 1]
    else Group(cfg, model, n - 1)
  }

  method BuildFallbackChain(cfg: seq<Backend>) returns (chains: map<string, seq<nat>>)
    ensures forall model :: model in chains <==> exists i :: 0 <= i < |cfg| && cfg[i].model == model
    ensures forall model :: model in chains ==> IsChain(cfg, model, chains[model])
  {
    hide IsChain, Group, StableSort;
    chains := GroupByModel(cfg);
    var todo := chains.Keys;
    ghost var models := chains.Keys;
    while todo != {}
      invariant todo <= chains.Keys == models
      invariant forall model :: model in todo ==> chains[model] == Group(cfg, model, |cfg|)
      invariant forall model :: model in models - todo ==> IsChain(cfg, model, chains[model])
      decreases todo
    {
      var model :| model in todo;
      SortedGroupIsChain(cfg, model);
      chains := chains[model := StableSort(cfg, chains[model])];
      todo := todo - {model};
    }
  }

  method GroupByModel(cfg: seq<Backend>) returns (chains: map<string, seq<nat>>)
    ensures forall model :: model in chains <==> exists i :: 0 <= i < |cfg| && cfg[i].model == model
    ensures forall model :: model in chains ==> chains[model] == Group(cfg, model, |cfg|)
  {
    hide Group;
    chains := map[];
    for i := 0 to |cfg|
      invariant forall model :: model in chains <==> exists k :: 0 <= k < i && cfg[k].model == model
      invariant forall model :: model in chains ==> chains[model] == Group(cfg, model, i)
    {
      var m := cfg[i].model;
      GroupGrows(cfg, i);
      if m !in chains {
        GroupEmpty(cfg, m, i);
      }
      var group := if m in chains then chains[m] else [];
      chains := chains[m := group + [i]];
    }
  }

  lemma {:induction false} GroupEmpty(cfg: seq<Backend>, model: string, n: nat)
    requires n <= |cfg| && forall k :: 0 <= k < n ==> cfg[k].model != model
    ensures Group(cfg, model, n) == []
  {
    if n > 0 {
      GroupEmpty(cfg, model, n - 1);
    }
  }

  lemma GroupGrows(cfg: seq<Backend>, i: nat)
    requires i < |cfg|
    ensures forall model :: Group(cfg, model, i + 1) ==
                            Group(cfg, model, i) + (if cfg[i].model == model then [i] else [])
  {
  }

  lemma SortedGroupIsChain(cfg: seq<Backend>, model: string)
    ensures IsChain(cfg, model, StableSort(cfg, Group(cfg, model, |cfg|)))
  {
    var g := Group(cfg, model, |cfg|);
    StableSortOrders(cfg, g);
    var c := StableSort(cfg, g);
    forall k | 0 <= k < |c| ensures cfg[c[k]].model == model {
      assert c[k] in c;
    }
  }

  // ----- What being the chain pins down -----

  /** There is only one chain of a model. */
  lemma ChainIsUnique(cfg: seq<Backend>, model: string, c: seq<nat>, d: seq<nat>)
    requires IsChain(cfg, model, c) && IsChain(cfg, model, d)
    ensures c == d
  {
    forall i ensures i in c <==> i in d {
      if i in c {
        var k :| 0 <= k < |c| && c[k] == i;
      }
      if i in d {
        var k :| 0 <= k < |d| && d[k] == i;
      }
    }
    OrderedIsUnique(cfg, c, d);
  }

  lemma {:induction false} OrderedIsUnique(cfg: seq<Backend>, c: seq<nat>, d: seq<nat>)
    requires InRange(cfg, c) && InRange(cfg, d) && Ordered(cfg, c) && Ordered(cfg, d)
    requires forall i :: i in c <==> i in d
    ensures c == d
    decreases |c|
  {
    if c != [] {
      assert c[0] in c;
      var k :| 0 <= k < |d| && d[k] == c[0];
      assert d[0] in d;
      var l :| 0 <= l < |c| && c[l] == d[0];
      assert c[0] == d[0];
      RestSame(cfg, c, d);
      OrderedIsUnique(cfg, c[1..], d[1..]);
      assert c == [c[0]] + c[1..] && d == [d[0]] + d[1..];
    }
  }

  lemma RestSame(cfg: seq<Backend>, c: seq<nat>, d: seq<nat>)
    requires c != [] && d != [] && c[0] == d[0]
    requires InRange(cfg, c) && InRange(cfg, d) && Ordered(cfg, c) && Ordered(cfg, d)
    requires forall i :: i in c <==> i in d
    ensures forall i :: i in c[1..] <==> i in d[1..]
  {
    assert c == [c[0]] + c[1..] && d == [d[0]] + d[1..];
    forall i ensures i in c[1..] <==> i in d[1..] {
      assert i in c[1..] <==> i in c && i != c[0];
      assert i in d[1..] <==> i in d && i != d[0];
    }
  }

  /** Every configured backend occurs at exactly one place, in the chain of its own model. */
  lemma EachBackendOccursOnce(cfg: seq<Backend>, model: string, c: seq<nat>, i: nat)
    requires IsChain(cfg, model, c) && i < |cfg|
    ensures cfg[i].model == model ==> exists k :: 0 <= k < |c| && c[k] == i && forall l :: 0 <= l < |c| && c[l] == i ==> l == k
    ensures cfg[i].model != model ==> i !in c
  {
    if cfg[i].model == model {
      assert i in c;
      var k :| 0 <= k < |c| && c[k] == i;
      assert forall l :: 0 <= l < |c| && c[l] == i ==> l == k;
    }
  }

  predicate UnsetLast(cfg: seq<Backend>, c: seq<nat>)
    requires InRange(cfg, c)
  {
    forall k, l :: 0 <= k < l < |c| && cfg[c[k]].priority == 0 ==> cfg[c[l]].priority == 0
  }

  /** If i is unset and j is not, both of the model, then j's priority puts it in front. */
  predicate UnsetSortsBehind(cfg: seq<Backend>, model: string, i: nat, j: nat)
    requires i < |cfg| && j < |cfg|
  {
    cfg[i].model == model && cfg[j].model == model && cfg[i].priority == 0 && cfg[j].priority != 0 ==>
      cfg[j].priority < 2147483647 || (cfg[j].priority == 2147483647 && j < i)
  }

  /** Unset priorities sort last exactly when no explicit one of the model reaches past
      2^31 - 1, nor equals it later in the list. */
  lemma UnsetLastExactly(cfg: seq<Backend>, model: string, c: seq<nat>)
    requires IsChain(cfg, model, c)
    ensures UnsetLast(cfg, c) <==> forall i, j :: 0 <= i < |cfg| && 0 <= j < |cfg| ==> UnsetSortsBehind(cfg, model, i, j)
  {
    if UnsetLast(cfg, c) {
      forall i, j | 0 <= i < |cfg| && 0 <= j < |cfg| ensures UnsetSortsBehind(cfg, model, i, j) {
        if cfg[i].model == model && cfg[j].model == model && cfg[i].priority == 0 && cfg[j].priority != 0 {
          var k :| 0 <= k < |c| && c[k] == i;
          var l :| 0 <= l < |c| && c[l] == j;
          assert l < k;
          assert Preferred(cfg, c[l], c[k]);
        }
      }
    }
    if forall i, j :: 0 <= i < |cfg| && 0 <= j < |cfg| ==> UnsetSortsBehind(cfg, model, i, j) {
      forall k, l | 0 <= k < l < |c| && cfg[c[k]].priority == 0 ensures cfg[c[l]].priority == 0 {
        assert Preferred(cfg, c[k], c[l]);
        assert UnsetSortsBehind(cfg, model, c[k], c[l]);
      }
    }
  }

  /** A priority past 2^31 - 1 sorts behind an unset one. */
  lemma UnsetCanSortFirst()
    ensures
      var cfg := [Backend("a", "m", 0, false), Backend("b", "m", 2147483648, false)];
      IsChain(cfg, "m", [0, 1]) && !UnsetLast(cfg, [0, 1])
  {
    var cfg, c: seq<nat> := [Backend("a", "m", 0, false), Backend("b", "m", 2147483648, false)], [0, 1];
    assert cfg[c[0]].priority == 0 && cfg[c[1]].priority != 0;
  }

  /** Of two backends with explicit priorities the lower number comes first, and of two with the
      same one that listed first; two unset ones keep their order in the list. */
  lemma LowerNumberFirst(cfg: seq<Backend>, model: string, c: seq<nat>, k: nat, l: nat)
    requires IsChain(cfg, model, c) && k < l < |c|
    requires cfg[c[k]].priority != 0 <==> cfg[c[l]].priority != 0
    ensures cfg[c[k]].priority < cfg[c[l]].priority || (cfg[c[k]].priority == cfg[c[l]].priority && c[k] < c[l])
  {
    assert Preferred(cfg, c[k], c[l]);
  }
}
