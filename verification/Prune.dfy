/** Pruning of a failed chain of tests: shorter chains of the same graph that still lead
    from the first method to the one that failed. */
module Prune {
  import opened Graph
  import opened Options

  const MAX_ITERATIONS := 2

  /** What has been tried already. */
  datatype Variant =
    | Shortest
    | ShortestBetween(first: Node, last: Node)
    | Skip
    | SkipFunction(name: Node)
    | SkipRange(start: nat, end: nat)
    | Disable
    | DisableFunction(name: Node)

  /** What was tried since `before` are skipped parts. */
  ghost predicate OnlySkips(before: seq<Variant>, after: seq<Variant>) {
    before <= after && forall k :: |before| <= k < |after| ==> SkipVariant(after[k])
  }

  predicate SkipVariant(v: Variant) {
    v.Skip? || v.SkipFunction? || v.SkipRange?
  }

  function OtherVariants(s: seq<Variant>): (r: seq<Variant>)
    ensures forall k :: 0 <= k < |r| ==> !SkipVariant(r[k])
  {
    if s == [] then [] else (if SkipVariant(s[0]) then [] else [s[0]]) + OtherVariants(s[1..])
  }

  ghost predicate SameEnds(p: seq<Node>, q: seq<Node>) {
    p != [] && q != [] && p[0] == q[0] && p[|p| - 1] == q[|q| - 1]
  }

  /** `q` is a walk between the same methods as `p`. */
  ghost predicate Replaces(g: Graph, p: seq<Node>, q: seq<Node>) {
    Walk(g, q) && SameEnds(p, q)
  }

  /** Between methods `i` and `j` there is no shorter way than the walk itself. */
  ghost predicate TightAt(g: Graph, p: seq<Node>, i: int, j: int) {
    0 <= i < j < |p| ==> forall q :: Route(g, p[i], p[j], {}, q) ==> j - i + 1 <= |q|
  }

  ghost predicate Tight(g: Graph, p: seq<Node>) {
    forall i, j :: i + 2 <= j ==> TightAt(g, p, i, j)
  }

  function Times(p: seq<Node>, f: Node): nat {
    multiset(p)[f]
  }

  ghost predicate Reachable(g: Graph, start: Node, end: Node, ignored: set<Node>) {
    exists q :: Route(g, start, end, ignored, q)
  }

  /** Occurrence `k` of `f`, its first one, has a way around it. */
  ghost predicate Avoidable(g: Graph, p: seq<Node>, f: Node, k: int) {
    && 1 <= k < |p| - 2 && p[k] == f && (forall i :: 1 <= i < k ==> p[i] != f)
    && Reachable(g, p[k - 1], p[k + 1], {f})
  }

  /** `q` has `f` no more often than `p`, and less often when the first occurrence can be
      avoided; without an occurrence before the last two methods nothing changes. */
  ghost predicate Fewer(g: Graph, p: seq<Node>, f: Node, q: seq<Node>) {
    && Times(q, f) <= Times(p, f)
    && ((exists k :: Avoidable(g, p, f, k)) ==> Times(q, f) < Times(p, f))
    && ((forall i :: 1 <= i < |p| - 2 ==> p[i] != f) ==> q == p)
  }

  /** The same of the first `index` methods of `p`. */
  ghost predicate FewerSoFar(g: Graph, p: seq<Node>, f: Node, q: seq<Node>, index: nat) {
    && index <= |p|
    && Times(q, f) <= Times(p[..index], f)
    && ((exists k :: k < index && Avoidable(g, p, f, k)) ==> Times(q, f) < Times(p[..index], f))
    && ((forall i :: 1 <= i < index ==> p[i] != f) ==> q == p[..index])
  }

  lemma OneMoreTime(p: seq<Node>, f: Node, index: nat)
    requires index < |p|
    ensures Times(p[..index + 1], f) == Times(p[..index], f) + if p[index] == f then 1 else 0
  {
    assert p[..index + 1] == p[..index] + [p[index]];
  }

  lemma OtherMethod(g: Graph, p: seq<Node>, f: Node, q: seq<Node>, index: nat)
    requires 1 <= index < |p| && p[index] != f && FewerSoFar(g, p, f, q, index)
    ensures FewerSoFar(g, p, f, q + [p[index]], index + 1)
  {
    OneMoreTime(p, f, index);
    assert p[..index + 1] == p[..index] + [p[index]];
    assert Times(q + [p[index]], f) == Times(q, f);
  }

  lemma OneLess(g: Graph, p: seq<Node>, f: Node, before: seq<Node>, q: seq<Node>, index: nat)
    requires 1 <= index < |p| - 2 && p[index] == f && FewerSoFar(g, p, f, before, index) && before != []
    requires if Reachable(g, before[|before| - 1], p[index + 1], {f})
             then Times(q, f) == Times(before, f) else q == before + [p[index]]
    ensures FewerSoFar(g, p, f, q, index + 1)
  {
    OneMoreTime(p, f, index);
    if q == before + [p[index]] {
      assert Times(q, f) == Times(before, f) + 1;
    }
    assert !forall i :: 1 <= i < index + 1 ==> p[i] != f;
  }

  lemma FewerAtEnd(g: Graph, p: seq<Node>, f: Node, q: seq<Node>)
    requires |p| >= 3 && FewerSoFar(g, p, f, q, |p| - 2)
    ensures Fewer(g, p, f, q + p[|p| - 2..])
  {
    assert p == p[..|p| - 2] + p[|p| - 2..];
    assert Times(p, f) == Times(p[..|p| - 2], f) + Times(p[|p| - 2..], f);
    assert Times(q + p[|p| - 2..], f) == Times(q, f) + Times(p[|p| - 2..], f);
  }

  lemma NotInside(g: Graph, start: Node, end: Node, f: Node, q: seq<Node>)
    requires Route(g, start, end, {f}, q)
    ensures Times(q[1..|q| - 1], f) == 0
  {
    var inside := q[1..|q| - 1];
    forall i | 0 <= i < |inside| ensures inside[i] != f {
      assert inside[i] == q[i + 1];
    }
  }

  /** Any stretch of a walk is a route between its ends. */
  lemma PartIsRoute(g: Graph, p: seq<Node>, i: nat, j: nat)
    requires Walk(g, p) && i < j < |p|
    ensures Route(g, p[i], p[j], {}, p[i..j + 1])
  {
    var part := p[i..j + 1];
    forall k | 0 <= k < |part| - 1 ensures Linked(g, part[k], part[k + 1]) {
      assert Linked(g, p[i + k], p[i + k + 1]);
    }
  }

  /** A stretch of a walk can be replaced by any walk with the same ends. */
  lemma Splice(g: Graph, p: seq<Node>, i: nat, j: nat, q: seq<Node>)
    requires Walk(g, p) && i <= j < |p|
    requires Walk(g, q) && q[0] == p[i] && q[|q| - 1] == p[j]
    ensures Replaces(g, p, p[..i] + q + p[j + 1..])
  {
    var r := p[..i] + q + p[j + 1..];
    forall k | 0 <= k < |r| - 1 ensures Linked(g, r[k], r[k + 1]) {
      if k < i {
        assert Linked(g, p[k], p[k + 1]);
      } else if k - i < |q| - 1 {
        assert Linked(g, q[k - i], q[k - i + 1]);
      } else {
        var m := k - i - |q| + 1 + j;
        assert Linked(g, p[m], p[m + 1]);
      }
    }
  }

  class Pruner {
    const g: Graph
    var forbidden: seq<Variant>

    constructor (g: Graph)
      ensures this.g == g && forbidden == []
    {
      this.g := g;
      forbidden := [];
    }

    /** The shortest path between two methods of a walk; it exists. */
    method Bypass(p: seq<Node>, i: nat, j: nat) returns (path: seq<Node>)
      requires Walk(g, p) && i < j < |p|
      ensures Walk(g, path) && path[0] == p[i] && path[|path| - 1] == p[j]
      ensures |path| <= j - i + 1
      ensures forall q :: Route(g, p[i], p[j], {}, q) ==> |path| <= |q|
    {
      PartIsRoute(g, p, i, j);
      assert Linked(g, p[i], p[i + 1]);
      var found := ShortestPath(g, p[i], p[j], {});
      path := found.path;
    }

    /** Rule one, on the first and on the last iteration: the shortest path.  It is never
        longer than the chain, nor than any other way. */
    method ShortestRule(chain: seq<Node>, n: nat, iteration: nat) returns (r: Option<seq<Node>>)
      requires 2 <= n <= |chain| && Walk(g, chain[..n])
      modifies this
      ensures r.Some? ==> Replaces(g, chain[..n], r.value) && |r.value| <= n
      ensures r.Some? ==> forall q :: Route(g, chain[0], chain[n - 1], {}, q) ==> |r.value| <= |q|
      ensures r.Some? <==> (iteration == 0 && Shortest !in old(forbidden))
                           || (iteration == MAX_ITERATIONS && ShortestBetween(chain[0], chain[n - 1]) !in old(forbidden))
      ensures forbidden == old(forbidden) + if r.None? then []
                else (if iteration == 0 then [Shortest] else []) + [ShortestBetween(chain[0], chain[n - 1])]
    {
      if iteration == 0 {
        if Shortest in forbidden {
          return None;
        }
        forbidden := forbidden + [Shortest];
      } else if iteration == MAX_ITERATIONS {
        if ShortestBetween(chain[0], chain[n - 1]) in forbidden {
          return None;
        }
      } else {
        return None;
      }
      forbidden := forbidden + [ShortestBetween(chain[0], chain[n - 1])];
      var path := Bypass(chain[..n], 0, n - 1);
      r := Some(path);
    }

    /** Forget which parts were skipped before. */
    method ForgetSkips()
      modifies this
      ensures forbidden == OtherVariants(old(forbidden))
    {
      var i := |forbidden|;
      assert forbidden[i..] == [];
      while i > 0
        invariant 0 <= i <= |forbidden| && i <= |old(forbidden)|
        invariant forbidden[..i] == old(forbidden)[..i]
        invariant forbidden[i..] == OtherVariants(old(forbidden)[i..])
      {
        i := i - 1;
        assert old(forbidden)[i..] == [old(forbidden)[i]] + old(forbidden)[i + 1..];
        assert forbidden[i] == forbidden[..i + 1][i] == old(forbidden)[..i + 1][i];
        if SkipVariant(forbidden[i]) {
          forbidden := forbidden[..i] + forbidden[i + 1..];
        }
      }
      assert forbidden[0..] == forbidden && old(forbidden)[0..] == old(forbidden);
    }

    /** Rule three: skip a part.  A chain it returns is strictly shorter. */
    method SkipRule(chain: seq<Node>, n: nat, iteration: nat) returns (r: Option<seq<Node>>)
      requires 2 <= n <= |chain| && Walk(g, chain[..n])
      modifies this
      ensures r.Some? ==> Replaces(g, chain[..n], r.value) && |r.value| < n
      ensures r.None? && iteration == MAX_ITERATIONS ==> Tight(g, chain[..n])
      ensures OnlySkips(OtherVariants(old(forbidden)), forbidden)
    {
      ForgetSkips();
      if iteration == 0 {
        r := SkipRandom(chain, n);
      } else if iteration == 1 {
        r := SkipRepeated(chain, n);
      } else if iteration == MAX_ITERATIONS {
        r := SkipAny(chain, n);
      } else {
        r := None;
      }
    }

    /** A part replaced by a path between its ends. */
    method Shortcut(chain: seq<Node>, n: nat, i: nat, j: nat, path: seq<Node>) returns (r: seq<Node>)
      requires n <= |chain| && Walk(g, chain[..n]) && i < j < n
      requires Walk(g, path) && path[0] == chain[i] && path[|path| - 1] == chain[j] && |path| < j - i + 1
      ensures Replaces(g, chain[..n], r) && |r| < n
    {
      Splice(g, chain[..n], i, j, path);
      assert chain[..n][..i] == chain[..i] && chain[..n][j + 1..] == chain[j + 1..n];
      r := chain[..i] + path + chain[j + 1..n];
    }

    /** First iteration: a random part. */
    method SkipRandom(chain: seq<Node>, n: nat) returns (r: Option<seq<Node>>)
      requires 2 <= n <= |chain| && Walk(g, chain[..n])
      modifies this
      ensures OnlySkips(old(forbidden), forbidden) && (n > 2 ==> Skip in forbidden)
      ensures r.Some? ==> Replaces(g, chain[..n], r.value) && |r.value| < n
    {
      if Skip in forbidden || n <= 2 {
        return None;
      }
      forbidden := forbidden + [Skip];
      var start :| 1 <= start <= n - 2;
      var end :| start + 1 <= end <= n - 1;
      var path := Bypass(chain[..n], start, end);
      if |path| >= end - start + 1 {
        return None;
      }
      forbidden := forbidden + [SkipRange(start, end)];
      var shorter := Shortcut(chain, n, start, end, path);
      r := Some(shorter);
    }

    /** Position of `f` in the chain from `from` on. */
    method IndexOf(chain: seq<Node>, f: Node, from: nat) returns (r: Option<nat>)
      requires from <= |chain|
      ensures r.Some? ==> from <= r.value < |chain| && chain[r.value] == f
      ensures r.None? <==> f !in chain[from..]
    {
      for i := from to |chain|
        invariant forall k :: from <= k < i ==> chain[k] != f
      {
        if chain[i] == f {
          assert chain[from..][i - from] == f;
          return Some(i);
        }
      }
      r := None;
    }

    /** Two occurrences of one method, other than the first and the last, in the first `n`
        of the chain. */
    method FindRepeated(chain: seq<Node>, n: nat) returns (start: nat, end: Option<nat>)
      requires 2 <= n <= |chain|
      modifies this
      ensures OnlySkips(old(forbidden), forbidden)
      ensures end.Some? ==> 0 < start < end.value < n && chain[start] == chain[end.value]
    {
      var todo := g.Keys - {chain[0]} - {chain[n - 1]};
      start, end := 0, None;
      while todo != {}
        invariant chain[0] !in todo && OnlySkips(old(forbidden), forbidden)
        invariant end.Some? ==> 0 < start < end.value < n && chain[start] == chain[end.value]
        decreases todo
      {
        var f :| f in todo;
        todo := todo - {f};
        if SkipFunction(f) in forbidden {
          continue;
        }
        var first := IndexOf(chain, f, 0);
        if first.None? {
          forbidden := forbidden + [SkipFunction(f)];
          continue;
        }
        start, end := first.value, None;
        var second := IndexOf(chain, f, start + 1);
        if second.None? {
          forbidden := forbidden + [SkipFunction(f)];
          continue;
        }
        if second.value < n {
          end := second;
          if SkipRange(start, end.value) !in forbidden {
            break;
          }
        }
      }
    }

    /** Second iteration: from a method to its next occurrence. */
    method SkipRepeated(chain: seq<Node>, n: nat) returns (r: Option<seq<Node>>)
      requires 2 <= n <= |chain| && Walk(g, chain[..n])
      modifies this
      ensures OnlySkips(old(forbidden), forbidden)
      ensures r.Some? ==> Replaces(g, chain[..n], r.value) && |r.value| < n
    {
      var start, end := FindRepeated(chain, n);
      if end.None? || SkipRange(start, end.value) in forbidden {
        return None;
      }
      forbidden := forbidden + [SkipRange(start, end.value)];
      var here := [chain[end.value]];
      Splice(g, chain[..n], start, end.value, here);
      assert chain[..n][..start] + here + chain[..n][end.value + 1..] == chain[..start] + chain[end.value..n];
      r := Some(chain[..start] + chain[end.value..n]);
    }

    /** Last iteration: every part, until one has a shorter bypass. */
    method SkipAny(chain: seq<Node>, n: nat) returns (r: Option<seq<Node>>)
      requires 2 <= n <= |chain| && Walk(g, chain[..n])
      requires forall k :: 0 <= k < |forbidden| ==> !SkipVariant(forbidden[k])
      modifies this
      ensures OnlySkips(old(forbidden), forbidden)
      ensures r.Some? ==> Replaces(g, chain[..n], r.value) && |r.value| < n
      ensures r.None? ==> Tight(g, chain[..n])
    {
      var p := chain[..n];
      for index := 0 to n - 2
        invariant OnlySkips(old(forbidden), forbidden)
        invariant forall i, j :: 0 <= i < index && i + 2 <= j ==> TightAt(g, p, i, j)
        invariant forall i: nat, j: nat :: index <= i ==> SkipRange(i, j) !in forbidden
      {
        for length := 2 to n - index
          invariant OnlySkips(old(forbidden), forbidden)
          invariant forall i, j :: 0 <= i < index && i + 2 <= j ==> TightAt(g, p, i, j)
          invariant forall j :: index + 2 <= j < index + length ==> TightAt(g, p, index, j)
          invariant forall i: nat, j: nat :: index <= i && SkipRange(i, j) in forbidden ==> i == index && j < index + length
        {
          if SkipRange(index, index + length) !in forbidden {
            var path := Bypass(p, index, index + length);
            forbidden := forbidden + [SkipRange(index, index + length)];
            if |path| <= length {
              var shorter := Shortcut(chain, n, index, index + length, path);
              return Some(shorter);
            }
          }
        }
      }
      r := None;
    }

    /** Rule two: replace every occurrence of one method by a bypass, where there is one.
        A prefix of two methods gets its first method twice, which is a walk exactly when
        that method has a positive-score edge to itself. */
    method DisableRule(chain: seq<Node>, n: nat, iteration: nat) returns (r: Option<seq<Node>>, ghost f: Node)
      requires 2 <= n <= |chain| && Walk(g, chain[..n])
      modifies this
      ensures r.Some? ==> SameEnds(chain[..n], r.value)
      ensures r.Some? ==> (Walk(g, r.value) <==> n >= 3 || Linked(g, chain[0], chain[0]))
      ensures r.Some? && n >= 3 ==> f != chain[0] && Fewer(g, chain[..n], f, r.value)
      ensures r.Some? ==> f in g && f != chain[0] && f != chain[n - 1]
                          && (iteration == 0 ==> Disable !in old(forbidden))
                          && (iteration == MAX_ITERATIONS ==> DisableFunction(f) !in old(forbidden))
                          && forbidden == old(forbidden) + (if iteration == 0 then [Disable] else []) + [DisableFunction(f)]
      ensures r.None? && iteration == MAX_ITERATIONS ==>
                forbidden == old(forbidden)
                && forall f :: f in g && f != chain[0] && f != chain[n - 1] ==> DisableFunction(f) in forbidden
    {
      f := chain[0];
      var functions := g.Keys - {chain[0]} - {chain[n - 1]};
      if iteration == 0 {
        if Disable in forbidden {
          functions := {};
        } else {
          forbidden := forbidden + [Disable];
        }
      } else if iteration == MAX_ITERATIONS {
        functions := set f | f in functions && DisableFunction(f) !in forbidden;
        assert forall h :: h in g && h != chain[0] && h != chain[n - 1] && DisableFunction(h) !in forbidden ==> h in functions;
      } else {
        functions := {};
      }
      if functions == {} {
        return None, f;
      }
      var name :| name in functions;
      f := name;
      forbidden := forbidden + [DisableFunction(name)];
      var newChain := Without(chain, n, name);
      r := Some(newChain);
    }

    /** The chain with every occurrence of `f` replaced, where there is a way around it. */
    method Without(chain: seq<Node>, n: nat, f: Node) returns (newChain: seq<Node>)
      requires 2 <= n <= |chain| && Walk(g, chain[..n]) && f != chain[0]
      ensures SameEnds(chain[..n], newChain)
      ensures Walk(g, newChain) <==> n >= 3 || Linked(g, chain[0], chain[0])
      ensures n >= 3 ==> Fewer(g, chain[..n], f, newChain)
    {
      if n >= 3 {
        newChain := LongWithout(chain, n, f);
      } else {
        newChain := [chain[0]] + chain[n - 2..n];
        Finish(g, chain, n, [chain[0]]);
      }
    }

    /** The same of a chain of three methods or more. */
    method LongWithout(chain: seq<Node>, n: nat, f: Node) returns (newChain: seq<Node>)
      requires 3 <= n <= |chain| && Walk(g, chain[..n]) && f != chain[0]
      ensures SameEnds(chain[..n], newChain) && Walk(g, newChain)
      ensures Fewer(g, chain[..n], f, newChain)
    {
      var inside := WithoutInside(chain, n, f);
      newChain := inside + chain[n - 2..n];
      WithLastTwo(g, chain, n, f, inside, newChain);
    }

    /** The part of it before the last two methods. */
    method WithoutInside(chain: seq<Node>, n: nat, f: Node) returns (newChain: seq<Node>)
      requires 3 <= n <= |chain| && Walk(g, chain[..n]) && f != chain[0]
      ensures newChain != [] && newChain[0] == chain[0] && Walk(g, newChain + [chain[n - 2]])
      ensures FewerSoFar(g, chain[..n], f, newChain, n - 2)
    {
      newChain := [chain[0]];
      assert Linked(g, chain[..n][0], chain[..n][1]) && chain[..n][..1] == newChain;
      for index := 1 to n - 2
        invariant newChain != [] && newChain[0] == chain[0] && Walk(g, newChain + [chain[index]])
        invariant FewerSoFar(g, chain[..n], f, newChain, index)
      {
        newChain := Onward(chain, n, f, newChain, index);
      }
    }

    /** One method of the chain more: taken, or gone around. */
    method Onward(chain: seq<Node>, n: nat, f: Node, before: seq<Node>, index: nat) returns (newChain: seq<Node>)
      requires n <= |chain| && Walk(g, chain[..n]) && 1 <= index < n - 2
      requires before != [] && before[0] == chain[0] && Walk(g, before + [chain[index]])
      requires FewerSoFar(g, chain[..n], f, before, index)
      ensures newChain != [] && newChain[0] == chain[0]
      ensures Walk(g, newChain + [chain[index + 1]])
      ensures FewerSoFar(g, chain[..n], f, newChain, index + 1)
    {
      assert Linked(g, chain[..n][index], chain[..n][index + 1]);
      if chain[index] != f {
        Append(g, before + [chain[index]], chain[index + 1]);
        OtherMethod(g, chain[..n], f, before, index);
        newChain := before + [chain[index]];
      } else {
        newChain := Around(chain, n, f, before, index);
        OneLess(g, chain[..n], f, before, newChain, index);
      }
    }

    /** Go around occurrence `index` of method `f`, or take it when there is no way around. */
    method Around(chain: seq<Node>, n: nat, f: Node, before: seq<Node>, index: nat) returns (newChain: seq<Node>)
      requires n <= |chain| && index + 1 < n && Linked(g, chain[index], chain[index + 1])
      requires before != [] && before[0] == chain[0] && Walk(g, before + [chain[index]])
      ensures newChain != [] && newChain[0] == chain[0]
      ensures Walk(g, newChain + [chain[index + 1]])
      ensures if Reachable(g, before[|before| - 1], chain[index + 1], {f})
              then Times(newChain, f) == Times(before, f) else newChain == before + [chain[index]]
    {
      Prefix(g, before, chain[index]);
      var found := ShortestPath(g, before[|before| - 1], chain[index + 1], {f});
      if found.Path? {
        assert Route(g, before[|before| - 1], chain[index + 1], {f}, found.path);
        Join(g, before, found.path);
        newChain := before + found.path[1..|found.path| - 1];
        NotInside(g, before[|before| - 1], chain[index + 1], f, found.path);
        assert Times(newChain, f) == Times(before, f) + Times(found.path[1..|found.path| - 1], f);
      } else {
        Append(g, before + [chain[index]], chain[index + 1]);
        newChain := before + [chain[index]];
      }
    }

    /** Try the rules, with less restraint on each iteration.  What is returned differs from
        the chain as it was and leads from the same method to the same one.  It is a walk,
        except for a chain of two methods the first of which has no positive-score edge to
        itself.  Nothing is returned only when no part of the chain can be made shorter. */
    method Prune(chain: seq<Node>, n: nat) returns (r: Option<seq<Node>>)
      requires 2 <= n <= |chain| && Walk(g, chain[..n])
      modifies this
      ensures r.Some? ==> SameEnds(chain[..n], r.value) && r.value != chain[..n]
      ensures r.Some? ==> (Walk(g, r.value) <==> n >= 3 || Linked(g, chain[0], chain[0]))
      ensures r.None? ==> Tight(g, chain[..n])
    {
      for iteration := 0 to MAX_ITERATIONS + 1
        invariant iteration > MAX_ITERATIONS ==> Tight(g, chain[..n])
      {
        r := ShortestRule(chain, n, iteration);
        if r.Some? && r.value != chain[..n] {
          ShorterThanTwo(g, chain, n, r.value);
          return;
        }
        ghost var f;
        r, f := DisableRule(chain, n, iteration);
        if r.Some? && r.value != chain[..n] {
          return;
        }
        r := SkipRule(chain, n, iteration);
        if r.Some? && r.value != chain[..n] {
          ShorterThanTwo(g, chain, n, r.value);
          return;
        }
      }
      r := None;
    }
  }

  /** Two methods have another walk between them, no longer, only when they are the same. */
  lemma ShorterThanTwo(g: Graph, chain: seq<Node>, n: nat, q: seq<Node>)
    requires 2 <= n <= |chain| && Walk(g, chain[..n])
    requires Replaces(g, chain[..n], q) && |q| <= n && q != chain[..n]
    ensures n >= 3 || Linked(g, chain[0], chain[0])
  {
    if n == 2 {
      assert Linked(g, chain[..n][0], chain[..n][1]);
      assert |q| < 2;
    }
  }

  const LENGTH_INFINITE := -1

  /** A chain that is generated from a random walk as far as it is looked at. */
  class LazyChain {
    const walker: Walker
    const maxLength: int
    var items: seq<Node>

    /** The chain so far is a walk, and the walker goes on from its end. */
    ghost predicate Valid()
      reads this, walker
    {
      items != [] ==> Walk(walker.g, items) && (walker.current.Some? ==> Walk(walker.g, items + [walker.current.value]))
    }

    /** Every method with edges has one of positive score. */
    ghost predicate Live() {
      forall n :: n in walker.g && walker.g[n] != [] ==>
        Sum(walker.g[n], |walker.g[n]|) > 0
    }

    constructor (walker: Walker, maxLength: int)
      ensures this.walker == walker && this.maxLength == maxLength && items == []
    {
      this.walker := walker;
      this.maxLength := maxLength;
      items := [];
    }

    /** Make sure that position `key` exists, with one more to spare, unless the walk or the
        maximal length ends first.  It stays a walk where no method has only edges of score 0. */
    method Expand(key: int)
      modifies this, walker
      ensures old(items) <= items && (Live() && old(Valid()) ==> Valid())
      ensures key < 0 ==> items == old(items)
      ensures maxLength != LENGTH_INFINITE ==> |items| <= maxLength || items == old(items)
      ensures key >= 0 ==> |items| <= key + 2 || items == old(items)
      ensures key >= 0 ==> walker.current.None? || |items| >= key + 2 || (maxLength != LENGTH_INFINITE && |items| >= maxLength)
    {
      if key < 0 {
        return;
      }
      var toGenerate := key - |items| + 2;
      if maxLength != LENGTH_INFINITE && |items| + toGenerate >= maxLength {
        toGenerate := maxLength - |items|;
      }
      while toGenerate > 0
        invariant old(items) <= items && (Live() && old(Valid()) ==> Valid())
        invariant 0 < toGenerate ==> |items| + toGenerate <= key + 2
        invariant 0 < toGenerate && maxLength != LENGTH_INFINITE ==> |items| + toGenerate <= maxLength
        invariant toGenerate <= 0 ==> |items| >= key + 2 || (maxLength != LENGTH_INFINITE && |items| >= maxLength)
        invariant maxLength != LENGTH_INFINITE ==> |items| <= maxLength || items == old(items)
        invariant |items| <= key + 2 || items == old(items)
        invariant toGenerate > 0 ==> |items| + toGenerate == key + 2 || (maxLength != LENGTH_INFINITE && |items| + toGenerate == maxLength)
      {
        var stop := *;
        var node := walker.Next(stop);
        if node.None? {
          break;
        }
        if Live() && old(Valid()) && walker.current.Some? {
          Append(walker.g, items + [node.value], walker.current.value);
        }
        items := items + [node.value];
        toGenerate := toGenerate - 1;
      }
    }
  }

  lemma Append(g: Graph, p: seq<Node>, n: Node)
    requires Walk(g, p) && Linked(g, p[|p| - 1], n)
    ensures Walk(g, p + [n])
  {
    var r := p + [n];
    forall i | 0 <= i < |r| - 1 ensures Linked(g, r[i], r[i + 1]) {
      if i < |p| - 1 {
        assert Linked(g, p[i], p[i + 1]);
      }
    }
  }

  lemma Prefix(g: Graph, p: seq<Node>, n: Node)
    requires p != [] && Walk(g, p + [n])
    ensures Walk(g, p) && Linked(g, p[|p| - 1], n)
  {
    var r := p + [n];
    assert Linked(g, r[|p| - 1], r[|p|]);
    forall i | 0 <= i < |p| - 1 ensures Linked(g, p[i], p[i + 1]) {
      assert Linked(g, r[i], r[i + 1]);
    }
  }

  /** Two walks that meet make one walk. */
  lemma Join(g: Graph, p: seq<Node>, q: seq<Node>)
    requires Walk(g, p) && Walk(g, q) && |q| >= 2 && p[|p| - 1] == q[0]
    ensures Walk(g, p + q[1..|q| - 1] + [q[|q| - 1]])
  {
    Splice(g, p, |p| - 1, |p| - 1, [q[0]]);
    var r := p + q[1..|q| - 1] + [q[|q| - 1]];
    forall i | 0 <= i < |r| - 1 ensures Linked(g, r[i], r[i + 1]) {
      if i < |p| - 1 {
        assert Linked(g, p[i], p[i + 1]);
      } else {
        var k := i - (|p| - 1);
        assert r[i] == q[k] && r[i + 1] == q[k + 1];
        assert Linked(g, q[k], q[k + 1]);
      }
    }
  }

  lemma WithLastTwo(g: Graph, chain: seq<Node>, n: nat, f: Node, before: seq<Node>, newChain: seq<Node>)
    requires 3 <= n <= |chain| && Walk(g, chain[..n]) && newChain == before + chain[n - 2..n]
    requires before != [] && before[0] == chain[0]
    requires Walk(g, before + [chain[n - 2]]) && FewerSoFar(g, chain[..n], f, before, n - 2)
    ensures SameEnds(chain[..n], newChain) && Walk(g, newChain)
    ensures Fewer(g, chain[..n], f, newChain)
  {
    Finish(g, chain, n, before);
    FewerAtEnd(g, chain[..n], f, before);
    assert chain[..n][n - 2..] == chain[n - 2..n];
  }

  /** The last two methods are taken as they are. */
  lemma Finish(g: Graph, chain: seq<Node>, n: nat, before: seq<Node>)
    requires 2 <= n <= |chain| && Walk(g, chain[..n])
    requires before != [] && before[0] == chain[0]
    requires n >= 3 ==> Walk(g, before + [chain[n - 2]])
    requires n == 2 ==> before == [chain[0]]
    ensures SameEnds(chain[..n], before + chain[n - 2..n])
    ensures Walk(g, before + chain[n - 2..n]) <==> n >= 3 || Linked(g, chain[0], chain[0])
  {
    var r := before + chain[n - 2..n];
    assert Linked(g, chain[..n][n - 2], chain[..n][n - 1]);
    if n >= 3 {
      Append(g, before + [chain[n - 2]], chain[n - 1]);
      assert before + [chain[n - 2]] + [chain[n - 1]] == r;
    } else {
      assert r == [chain[0], chain[0], chain[1]];
      if Walk(g, r) {
        assert Linked(g, r[0], r[1]);
      }
    }
  }
}
