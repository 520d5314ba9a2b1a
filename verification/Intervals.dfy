/** Disjoint interval trees: the sets of file offsets that the cache keeps as
    `updated` and `modified`, and that version files keep as "saved here".

    The splay tree of the source is a sequence of nodes ordered by start; lookup,
    predecessor and successor are positions in it.  Nodes are half-open ranges. */
module Intervals {

  datatype Interval = Interval(start: nat, end: nat)

  ghost predicate Between(x: int, a: int, b: int) {
    a <= x < b
  }

  /** The offsets of [a, b). */
  ghost function Range(a: int, b: int): set<int> {
    set x | a <= x < b && Between(x, a, b)
  }

  /** Node `i` of the list contains offset `x`. */
  ghost predicate Hits(s: seq<Interval>, i: int, x: int) {
    0 <= i < |s| && s[i].start <= x < s[i].end
  }

  /** The offsets a list of intervals stands for. */
  ghost function Cover(s: seq<Interval>): set<int> {
    set i, x | 0 <= i < |s| && s[i].start <= x < s[i].end && Hits(s, i, x) :: x
  }

  /** Ordered, and neither overlapping nor adjacent: what merging on insertion keeps. */
  ghost predicate Canonical(s: seq<Interval>) {
    && (forall i :: 0 <= i < |s| ==> s[i].start <= s[i].end)
    && (forall i, j :: 0 <= i < j < |s| ==> s[i].end < s[j].start)
  }

  /** No interval of the list is empty. */
  ghost predicate Proper(s: seq<Interval>) {
    forall i :: 0 <= i < |s| ==> s[i].start < s[i].end
  }

  /** No interval of the list, empty or not, ends behind `n`. */
  ghost predicate Within(s: seq<Interval>, n: nat) {
    forall i :: 0 <= i < |s| ==> s[i].end <= n
  }

  lemma NodeOf(s: seq<Interval>, x: int) returns (i: int)
    requires x in Cover(s)
    ensures Hits(s, i, x)
  {
    i :| 0 <= i < |s| && s[i].start <= x < s[i].end;
  }

  lemma HitCovered(s: seq<Interval>, i: int, x: int)
    requires Hits(s, i, x)
    ensures x in Cover(s)
  {
  }

  lemma CoverConcat(a: seq<Interval>, b: seq<Interval>)
    ensures Cover(a + b) == Cover(a) + Cover(b)
  {
    var s := a + b;
    forall x | x in Cover(a) + Cover(b) ensures x in Cover(s) {
      if x in Cover(a) {
        var i := NodeOf(a, x);
        HitCovered(s, i, x);
      } else {
        var i := NodeOf(b, x);
        HitCovered(s, |a| + i, x);
      }
    }
    forall x | x in Cover(s) ensures x in Cover(a) + Cover(b) {
      var i := NodeOf(s, x);
      assert if i < |a| then Hits(a, i, x) else Hits(b, i - |a|, x);
    }
  }

  lemma CoverOne(iv: Interval)
    ensures Cover([iv]) == Range(iv.start, iv.end)
  {
    forall x | x in Range(iv.start, iv.end) ensures x in Cover([iv]) {
      HitCovered([iv], 0, x);
    }
  }

  lemma CoverSplit(s: seq<Interval>, k: nat)
    requires k < |s|
    ensures Cover(s) == Cover(s[..k]) + Range(s[k].start, s[k].end) + Cover(s[k + 1..])
  {
    assert s == s[..k] + ([s[k]] + s[k + 1..]);
    CoverConcat(s[..k], [s[k]] + s[k + 1..]);
    CoverConcat([s[k]], s[k + 1..]);
    CoverOne(s[k]);
  }

  lemma CoverSnoc(s: seq<Interval>, iv: Interval)
    ensures Cover(s + [iv]) == Cover(s) + Range(iv.start, iv.end)
  {
    CoverConcat(s, [iv]);
    CoverOne(iv);
  }

  /** Two merged, ordered lists of non-empty intervals with the same offsets are the
      same list: the tree is a normal form of the set it stands for. */
  lemma {:induction false} CanonicalUnique(a: seq<Interval>, b: seq<Interval>)
    requires Canonical(a) && Canonical(b) && Proper(a) && Proper(b)
    requires Cover(a) == Cover(b)
    ensures a == b
    decreases |a|
  {
    if a != [] && b != [] {
      FirstReaches(a, b);
      FirstReaches(b, a);
      TailCover(a);
      TailCover(b);
      CanonicalUnique(a[1..], b[1..]);
      assert a == [a[0]] + a[1..] && b == [b[0]] + b[1..];
    } else {
      NonemptyCover(a);
      NonemptyCover(b);
    }
  }

  lemma NonemptyCover(a: seq<Interval>)
    requires Proper(a)
    ensures Cover(a) == {} ==> a == []
  {
    if a != [] {
      HitCovered(a, 0, a[0].start);
    }
  }

  lemma TailCover(a: seq<Interval>)
    requires a != [] && Canonical(a)
    ensures Cover(a[1..]) == Cover(a) - Range(a[0].start, a[0].end)
  {
    CoverSplit(a, 0);
    assert a[..0] == [];
  }

  /** The first interval of b lies within the first interval of a. */
  lemma FirstReaches(a: seq<Interval>, b: seq<Interval>)
    requires Canonical(a) && Canonical(b) && Proper(a) && Proper(b)
    requires a != [] && b != []
    requires Cover(a) == Cover(b)
    ensures a[0].start <= b[0].start && b[0].end <= a[0].end
  {
    HitCovered(b, 0, b[0].start);
    var i := NodeOf(a, b[0].start);
    HitCovered(a, 0, a[0].start);
    var j := NodeOf(b, a[0].start);
    GapNotInCover(a, a[0].end, a[0].end + 1);
    assert a[0].end in Range(a[0].end, a[0].end + 1);
    if Hits(b, 0, a[0].end) {
      HitCovered(b, 0, a[0].end);
    }
  }

  /** Number of nodes that start before `key`; the splay lookup of `key`, its
      predecessor and its successor sit around this position. */
  function Below(s: seq<Interval>, key: nat): (k: nat)
    requires Canonical(s)
    ensures k <= |s|
    ensures forall i :: 0 <= i < k ==> s[i].start < key
    ensures forall i :: k <= i < |s| ==> key <= s[i].start
  {
    if s == [] || key <= s[0].start then 0 else 1 + Below(s[1..], key)
  }

  /** Canonical everywhere except that node `at` may reach into its successors. */
  ghost predicate CanonicalButAt(s: seq<Interval>, at: nat) {
    && at < |s|
    && (forall i :: 0 <= i < |s| ==> s[i].start <= s[i].end)
    && (forall i, j :: 0 <= i < j < |s| && i != at ==> s[i].end < s[j].start)
    && (forall j :: at < j < |s| ==> s[at].start < s[j].start)
  }

  function Max(a: nat, b: nat): nat { if a < b then b else a }

  function Min(a: nat, b: nat): nat { if a < b then a else b }

  class IntervalTree {
    var nodes: seq<Interval>

    ghost predicate Valid() reads this { Canonical(nodes) }

    ghost function Offsets(): set<int> reads this { Cover(nodes) }

    constructor ()
      ensures Valid() && nodes == []
      ensures Offsets() == {}
    {
      nodes := [];
    }

    method Empty()
      modifies this
      ensures Valid() && nodes == []
      ensures Offsets() == {}
    {
      nodes := [];
    }

    /** Insert [start, end), merging it with every node it touches. */
    method Insert(start: nat, end: nat)
      requires Valid() && start <= end
      modifies this
      ensures Valid()
      ensures Offsets() == old(Offsets()) + Range(start, end)
      ensures start < end && Proper(old(nodes)) ==> Proper(nodes)
      ensures forall n: nat :: end <= n && Within(old(nodes), n) ==> Within(nodes, n)
    {
      var at := Place(start, end);
      while at + 1 < |nodes| && nodes[at + 1].start <= nodes[at].end
        invariant CanonicalButAt(nodes, at)
        invariant Cover(nodes) == old(Cover(nodes)) + Range(start, end)
        invariant start < end && Proper(old(nodes)) ==> Proper(nodes)
        invariant forall n: nat :: end <= n && Within(old(nodes), n) ==> Within(nodes, n)
        decreases |nodes|
      {
        MergeNext(at);
      }
    }

    /** Take [start, end) into a node that it touches, or into a new one; the node may then
        reach into its successors. */
    method Place(start: nat, end: nat) returns (at: nat)
      requires Valid() && start <= end
      modifies this
      ensures CanonicalButAt(nodes, at)
      ensures Cover(nodes) == old(Cover(nodes)) + Range(start, end)
      ensures start < end && Proper(old(nodes)) ==> Proper(nodes)
      ensures forall n: nat :: end <= n && Within(old(nodes), n) ==> Within(nodes, n)
    {
      var k := Below(nodes, start);
      at := k;
      if k < |nodes| && nodes[k].start == start {
        if nodes[k].end >= end {
          CoverSplit(nodes, k);
        } else {
          Extend(k, start, end);
        }
      } else if k > 0 && nodes[k - 1].end >= start {
        at := k - 1;
        Extend(at, start, end);
      } else if k < |nodes| && nodes[k].start <= end {
        Extend(k, start, end);
      } else {
        AddNode(k, start, end);
      }
    }

    /** Widen node `k`, which [start, end) touches, to take in [start, end). */
    method Extend(k: nat, start: nat, end: nat)
      requires Valid() && k < |nodes| && start <= end
      requires nodes[k].start <= end && start <= nodes[k].end
      requires forall i :: 0 <= i < k ==> nodes[i].end < start
      modifies this
      ensures CanonicalButAt(nodes, k)
      ensures Cover(nodes) == old(Cover(nodes)) + Range(start, end)
      ensures Proper(old(nodes)) ==> Proper(nodes)
      ensures forall n: nat :: end <= n && Within(old(nodes), n) ==> Within(nodes, n)
    {
      var iv := Interval(Min(start, nodes[k].start), Max(nodes[k].end, end));
      ExtendCover(nodes, k, iv, start, end);
      nodes := nodes[k := iv];
    }

    /** Put a node for [start, end), which touches no node, at position `k`. */
    method AddNode(k: nat, start: nat, end: nat)
      requires Valid() && k <= |nodes| && start <= end
      requires forall i :: 0 <= i < k ==> nodes[i].end < start
      requires forall i :: k <= i < |nodes| ==> end < nodes[i].start
      modifies this
      ensures CanonicalButAt(nodes, k)
      ensures Cover(nodes) == old(Cover(nodes)) + Range(start, end)
      ensures start < end && Proper(old(nodes)) ==> Proper(nodes)
      ensures forall n: nat :: end <= n && Within(old(nodes), n) ==> Within(nodes, n)
    {
      var a, b, one := nodes[..k], nodes[k..], [Interval(start, end)];
      assert nodes == a + b;
      CoverConcat(a, b);
      CoverConcat(a, one + b);
      CoverConcat(one, b);
      CoverOne(one[0]);
      nodes := a + (one + b);
    }

    /** Fold the successor of node `at` into it. */
    method MergeNext(at: nat)
      requires CanonicalButAt(nodes, at) && at + 1 < |nodes|
      requires nodes[at + 1].start <= nodes[at].end
      modifies this
      ensures CanonicalButAt(nodes, at)
      ensures Cover(nodes) == old(Cover(nodes)) && |nodes| == |old(nodes)| - 1
      ensures Proper(old(nodes)) ==> Proper(nodes)
      ensures forall n: nat :: Within(old(nodes), n) ==> Within(nodes, n)
    {
      var m := Interval(nodes[at].start, Max(nodes[at].end, nodes[at + 1].end));
      MergeCover(nodes, at, m);
      MergeShape(nodes, at, m);
      nodes := Merged(nodes, at, m);
    }

    /** Insert every node of `other`. */
    method Add(other: IntervalTree)
      requires Valid() && other.Valid() && other != this
      modifies this
      ensures Valid()
      ensures Offsets() == old(Offsets()) + other.Offsets()
      ensures Proper(old(nodes)) && Proper(other.nodes) ==> Proper(nodes)
    {
      for i := 0 to |other.nodes|
        invariant Valid()
        invariant Offsets() == old(Offsets()) + Cover(other.nodes[..i])
        invariant Proper(old(nodes)) && Proper(other.nodes) ==> Proper(nodes)
      {
        assert other.nodes[..i + 1] == other.nodes[..i] + [other.nodes[i]];
        CoverSnoc(other.nodes[..i], other.nodes[i]);
        Insert(other.nodes[i].start, other.nodes[i].end);
      }
      assert other.nodes[..|other.nodes|] == other.nodes;
    }

    /** Delete [start, end).  The offsets are always right; the shape is lost exactly
        when an empty range strictly inside a node is deleted, which cuts that node
        into two adjacent ones. */
    method Delete(start: nat, end: nat)
      requires Valid() && start <= end
      modifies this
      ensures Offsets() == old(Offsets()) - Range(start, end)
      ensures Valid() <==> !(start == end && StrictlyInside(old(nodes), start))
      ensures Proper(old(nodes)) ==> Proper(nodes)
      ensures FrontOf(old(nodes), start, end) ==> nodes == WithoutFront(old(nodes), Below(old(nodes), start), end)
    {
      var k := Below(nodes, start);
      if k < |nodes| && nodes[k].start == start {
        NotInside(nodes, k, start);
        DeleteAt(k, start, end);
      } else if k > 0 && start < nodes[k - 1].end {
        if nodes[k - 1].end > end {
          Cut(k - 1, start, end);
          return;
        }
        Shrink(k - 1, Interval(nodes[k - 1].start, start), start, end);
        DeleteFrom(k, start, end);
      } else {
        NotInside(nodes, k, start);
        DeleteFrom(k, start, end);
      }
    }

    /** Delete [start, end) where node `k` starts at `start`. */
    method DeleteAt(k: nat, start: nat, end: nat)
      requires Valid() && k < |nodes| && nodes[k].start == start <= end
      modifies this
      ensures Valid()
      ensures Offsets() == old(Offsets()) - Range(start, end)
      ensures Proper(old(nodes)) ==> Proper(nodes)
      ensures end <= old(nodes)[k].end ==> nodes == WithoutFront(old(nodes), k, end)
    {
      if nodes[k].end > end {
        Shrink(k, Interval(end, nodes[k].end), start, end);
        ClearedCover(nodes, start, end);
      } else {
        Drop(k, start, end);
        DeleteFrom(k, start, end);
      }
    }

    /** Delete the intervals from position `k` on that intersect [start, end). */
    method DeleteFrom(k: nat, start: nat, end: nat)
      requires Valid() && k <= |nodes| && start <= end
      requires forall i :: 0 <= i < k ==> nodes[i].end <= start
      requires forall i :: k <= i < |nodes| ==> start < nodes[i].start
      modifies this
      ensures Valid()
      ensures Offsets() == old(Offsets()) - Range(start, end)
      ensures Proper(old(nodes)) ==> Proper(nodes)
      ensures k == |old(nodes)| || end <= old(nodes)[k].start ==> nodes == old(nodes)
    {
      while k < |nodes| && nodes[k].start < end
        invariant Valid() && k <= |nodes|
        invariant forall i :: 0 <= i < k ==> nodes[i].end <= start
        invariant forall i :: k <= i < |nodes| ==> start < nodes[i].start
        invariant Cover(nodes) - Range(start, end) == old(Cover(nodes)) - Range(start, end)
        invariant Proper(old(nodes)) ==> Proper(nodes)
        invariant k == |old(nodes)| || end <= old(nodes)[k].start ==> nodes == old(nodes)
        decreases |nodes|
      {
        if nodes[k].end <= end {
          Drop(k, start, end);
        } else {
          Shrink(k, Interval(end, nodes[k].end), start, end);
          break;
        }
      }
      ClearedCover(nodes, start, end);
    }

    /** Replace node `k` by a part of it, giving up only offsets of [start, end). */
    method Shrink(k: nat, iv: Interval, start: nat, end: nat)
      requires Valid() && k < |nodes|
      requires nodes[k].start <= iv.start <= iv.end <= nodes[k].end
      requires (iv.end == nodes[k].end && start <= nodes[k].start && iv.start <= end)
            || (iv.start == nodes[k].start && nodes[k].end <= end && start <= iv.end)
      modifies this
      ensures nodes == old(nodes)[k := iv]
      ensures Valid()
      ensures Cover(nodes) - Range(start, end) == old(Cover(nodes)) - Range(start, end)
    {
      var s := nodes;
      nodes := s[k := iv];
      CoverSplit(s, k);
      assert nodes[..k] == s[..k] && nodes[k + 1..] == s[k + 1..];
      CoverSplit(nodes, k);
      assert Range(s[k].start, s[k].end) - Range(start, end) == Range(iv.start, iv.end) - Range(start, end);
    }

    /** Cut [start, end) out of the middle of node `k`. */
    method Cut(k: nat, start: nat, end: nat)
      requires Valid() && k < |nodes|
      requires nodes[k].start < start <= end < nodes[k].end
      modifies this
      ensures Offsets() == old(Offsets()) - Range(start, end)
      ensures Valid() <==> start < end
      ensures Proper(old(nodes)) ==> Proper(nodes)
    {
      var s := nodes;
      var left, right := Interval(s[k].start, start), Interval(end, s[k].end);
      nodes := s[..k] + ([left] + ([right] + s[k + 1..]));
      CutCover(s, k, start, end);
      assert nodes[k] == left && nodes[k + 1] == right;
      assert forall i :: 0 <= i < |nodes| ==>
        nodes[i] == if i < k then s[i] else if i == k then left else if i == k + 1 then right else s[i - 1];
    }

    /** Remove node `k`, which lies in [start, end). */
    method Drop(k: nat, start: nat, end: nat)
      requires Valid() && k < |nodes|
      requires start <= nodes[k].start && nodes[k].end <= end
      modifies this
      ensures nodes == old(nodes)[..k] + old(nodes)[k + 1..]
      ensures Valid()
      ensures Cover(nodes) - Range(start, end) == old(Cover(nodes)) - Range(start, end)
      ensures Proper(old(nodes)) ==> Proper(nodes)
    {
      CoverSplit(nodes, k);
      CoverConcat(nodes[..k], nodes[k + 1..]);
      nodes := nodes[..k] + nodes[k + 1..];
    }

    /** Position of the node containing `value`, else of the first node after it, else
        the number of nodes. */
    method Lookup(value: nat) returns (i: nat)
      requires Valid()
      ensures i <= |nodes|
      ensures forall j :: 0 <= j < i ==> nodes[j].end <= value && nodes[j].start < value
      ensures i < |nodes| ==> value < nodes[i].end || nodes[i].start == value
      ensures i < |nodes| ==> i == 0 || nodes[i - 1].end < nodes[i].start
    {
      i := Below(nodes, value);
      if i < |nodes| && nodes[i].start == value {
        return;
      }
      if i > 0 && nodes[i - 1].end > value {
        i := i - 1;
      }
    }

    /** True when one node reaches from `start` to `end`.  For a non-empty range this is
        coverage; an empty range also needs a node to lie against it. */
    method Covered(start: nat, end: nat) returns (r: bool)
      requires Valid() && start <= end
      ensures r <==> exists i :: 0 <= i < |nodes| && nodes[i].start <= start && end <= nodes[i].end
      ensures start < end ==> (r <==> Range(start, end) <= Offsets())
    {
      var k := Below(nodes, start);
      if !(k < |nodes| && nodes[k].start == start) {
        if k == 0 {
          UncoveredAt(nodes, start, end);
          return false;
        }
        k := k - 1;
      }
      r := end <= nodes[k].end;
      if r {
        CoverSplit(nodes, k);
      } else {
        UncoveredAt(nodes, start, end);
      }
    }

    /** The parts of [start, end) that the tree holds, in order. */
    method Intersection(start: nat, end: nat) returns (res: seq<Interval>)
      requires Valid() && start <= end
      ensures Canonical(res)
      ensures Cover(res) == Range(start, end) * Offsets()
      ensures Inside(res, start, end)
    {
      var i := Lookup(start);
      res := [];
      GapNotInCover(nodes[..i], start, end);
      while i < |nodes| && nodes[i].start < end
        invariant i <= |nodes|
        invariant Canonical(res) && Inside(res, start, end)
        invariant i < |nodes| ==> start <= nodes[i].end && EndsBefore(res, nodes[i].start)
        invariant Cover(res) == Range(start, end) * Cover(nodes[..i])
      {
        var x := Interval(Max(start, nodes[i].start), Min(end, nodes[i].end));
        MeetStep(nodes, i, res, start, end, x);
        res := res + [x];
        i := i + 1;
      }
      SuffixOutside(nodes, i, start, end);
    }

    /** The parts of [start, end) that the tree does not hold, in order.  The last part
        is not clipped: it runs on to the next node when one starts beyond `end`. */
    method Complement(start: nat, end: nat) returns (res: seq<Interval>)
      requires Valid() && start <= end
      ensures Cover(res) == Range(start, end) - Offsets() + Overrun(nodes, start, end)
      ensures Proper(res)
      ensures Proper(nodes) ==> Canonical(res)
      ensures start == end ==> res == []
    {
      var j := Below(nodes, start);
      var last := start;
      if j < |nodes| && nodes[j].start == start {
        last := nodes[j].end;
        NodeInCover(nodes, j);
        j := j + 1;
      } else if j > 0 && nodes[j - 1].end > start {
        last := nodes[j - 1].end;
        NodeInCover(nodes, j - 1);
      }
      if start == end {
        return [];
      }
      assert Cover([]) == {};
      res := ComplementFrom(start, end, last, j);
    }

    /** The parts of the intervals of `src` that the tree does not hold. */
    method ComplementAll(src: seq<Interval>) returns (res: seq<Interval>)
      requires Valid() && forall i :: 0 <= i < |src| ==> src[i].start <= src[i].end
      ensures Cover(res) == Cover(src) - Offsets() + OverrunAll(nodes, src)
      ensures Proper(res)
      ensures Proper(nodes) ==> StartsIn(res, Cover(src))
      ensures src == [] ==> res == []
    {
      res := [];
      for i := 0 to |src|
        invariant Cover(res) == Cover(src[..i]) - Offsets() + OverrunAll(nodes, src[..i])
        invariant Proper(res)
        invariant Proper(nodes) ==> StartsIn(res, Cover(src[..i]))
        invariant src == [] ==> res == []
      {
        var part := Complement(src[i].start, src[i].end);
        assert src[..i + 1] == src[..i] + [src[i]] && src[..i + 1][..i] == src[..i];
        CoverSnoc(src[..i], src[i]);
        if Proper(nodes) {
          PartStarts(nodes, src[i].start, src[i].end, part);
          StartsConcat(res, part, Cover(src[..i]), Range(src[i].start, src[i].end));
        }
        CoverConcat(res, part);
        res := res + part;
      }
      assert src[..|src|] == src;
    }

    /** The walk of `Complement` from node `at` on. */
    method ComplementFrom(start: nat, end: nat, from: nat, at: nat) returns (res: seq<Interval>)
      requires Valid() && start < end && at <= |nodes|
      requires Walked(nodes, start, end, from, at, [])
      ensures Cover(res) == Range(start, end) - Offsets() + Overrun(nodes, start, end)
      ensures Proper(res)
      ensures Proper(nodes) ==> Canonical(res)
    {
      var j, last := at, from;
      res := [];
      while last < end
        invariant 0 <= last && j <= |nodes| && Walked(nodes, start, end, last, j, res)
        decreases |nodes| - j, end - last
      {
        if j < |nodes| {
          GapStep(nodes, res, start, end, last, j);
          res := res + [Interval(last, nodes[j].start)];
          last := nodes[j].end;
          j := j + 1;
        } else {
          LastGap(nodes, res, start, end, last);
          res := res + [Interval(last, end)];
          return;
        }
      }
      OverrunFrom(nodes, start, end, j);
    }
  }

  ghost predicate StartsIn(s: seq<Interval>, at: set<int>) {
    forall k :: 0 <= k < |s| ==> s[k].start in at
  }

  lemma StartsConcat(a: seq<Interval>, b: seq<Interval>, at: set<int>, bt: set<int>)
    requires StartsIn(a, at) && StartsIn(b, bt)
    ensures StartsIn(a + b, at + bt)
  {
  }

  /** What `Complement` returns starts in the range asked for, even where it overruns. */
  lemma PartStarts(s: seq<Interval>, start: nat, end: nat, res: seq<Interval>)
    requires Canonical(s) && Proper(res) && Canonical(res)
    requires Cover(res) == Range(start, end) - Cover(s) + Overrun(s, start, end)
    ensures StartsIn(res, Range(start, end))
  {
    forall k | 0 <= k < |res| ensures res[k].start in Range(start, end) {
      var x := res[k].start;
      HitCovered(res, k, x);
      if x !in Range(start, end) {
        assert x in Overrun(s, start, end);
        assert x - 1 in Range(start, end) || x - 1 in Overrun(s, start, end);
        assert x - 1 in Cover(res);
        var i := NodeOf(res, x - 1);
        assert false;
      }
    }
  }

  /** What `ComplementAll` returns beyond the ends of the intervals of `src`. */
  ghost function OverrunAll(s: seq<Interval>, src: seq<Interval>): set<int>
    requires Canonical(s)
  {
    if src == [] then {}
    else OverrunAll(s, src[..|src| - 1]) + Overrun(s, src[|src| - 1].start, src[|src| - 1].end)
  }

  /** A stretch of `v` has its last offset `p` in a gap of `c`, with offsets of `c` further on. */
  ghost predicate EndsInGap(c: set<int>, v: set<int>, p: int) {
    && p in v && p + 1 !in v
    && p !in c && p + 1 !in c && exists x :: x in c && p < x
  }

  ghost predicate Met(c: set<int>, v: set<int>) {
    forall p :: !EndsInGap(c, v, p)
  }

  /** `ComplementAll` overruns exactly when such a stretch exists, and then it returns the
      offset right behind that stretch. */
  lemma OverrunMet(s: seq<Interval>, src: seq<Interval>)
    requires Canonical(s) && Proper(s) && Canonical(src)
    ensures Met(Cover(s), Cover(src)) ==> OverrunAll(s, src) == {}
    ensures !Met(Cover(s), Cover(src)) ==> exists b :: b in OverrunAll(s, src) && b !in Cover(src)
  {
    if Met(Cover(s), Cover(src)) {
      forall i | 0 <= i < |src| ensures Overrun(s, src[i].start, src[i].end) == {} {
        PieceEnd(src, i);
        OverrunAtEnd(s, src[i].start, src[i].end);
        assert !EndsInGap(Cover(s), Cover(src), src[i].end - 1);
      }
      OverrunNone(s, src);
    } else {
      var p :| EndsInGap(Cover(s), Cover(src), p);
      var i := NodeOf(src, p);
      if p + 1 < src[i].end {
        HitCovered(src, i, p + 1);
      }
      assert src[i].end == p + 1;
      OverrunAtEnd(s, src[i].start, src[i].end);
      OverrunAllOf(s, src, i);
    }
  }

  /** Merged intervals end where the set they stand for ends. */
  lemma PieceEnd(s: seq<Interval>, i: nat)
    requires Canonical(s) && i < |s|
    ensures s[i].end !in Cover(s)
    ensures s[i].start < s[i].end ==> s[i].end - 1 in Cover(s)
  {
    if s[i].end in Cover(s) {
      var j := NodeOf(s, s[i].end);
    }
    if s[i].start < s[i].end {
      HitCovered(s, i, s[i].end - 1);
    }
  }

  lemma OverrunAtEnd(s: seq<Interval>, start: nat, end: nat)
    requires Canonical(s) && Proper(s)
    ensures Overrun(s, start, end) != {} ==>
              end in Overrun(s, start, end) && start < end && end - 1 !in Cover(s) && end !in Cover(s)
              && exists x :: x in Cover(s) && end <= x
    ensures start < end && end - 1 !in Cover(s) && end !in Cover(s) && (exists x :: x in Cover(s) && end <= x) ==>
              end in Overrun(s, start, end)
  {
    var j := Below(s, end);
    if Overrun(s, start, end) != {} {
      OverrunOutside(s, start, end);
      HitCovered(s, j, s[j].start);
    }
    if start < end && end - 1 !in Cover(s) && end !in Cover(s) && exists x :: x in Cover(s) && end <= x {
      var x :| x in Cover(s) && end <= x;
      var k := NodeOf(s, x);
      assert j <= k by {
        if k < j && Hits(s, k, end - 1) {
          HitCovered(s, k, end - 1);
        }
      }
      if s[j].start == end {
        HitCovered(s, j, end);
      }
    }
  }

  lemma {:induction false} OverrunAllOf(s: seq<Interval>, src: seq<Interval>, i: nat)
    requires Canonical(s) && i < |src|
    ensures Overrun(s, src[i].start, src[i].end) <= OverrunAll(s, src)
    decreases |src|
  {
    if i < |src| - 1 {
      OverrunAllOf(s, src[..|src| - 1], i);
    }
  }

  lemma {:induction false} OverrunNone(s: seq<Interval>, src: seq<Interval>)
    requires Canonical(s)
    requires forall i :: 0 <= i < |src| ==> Overrun(s, src[i].start, src[i].end) == {}
    ensures OverrunAll(s, src) == {}
    decreases |src|
  {
    if src != [] {
      OverrunNone(s, src[..|src| - 1]);
    }
  }

  lemma OverrunOutside(s: seq<Interval>, start: nat, end: nat)
    requires Canonical(s)
    ensures Overrun(s, start, end) !! Cover(s)
  {
    var j := Below(s, end);
    if start < end && end - 1 !in Cover(s) && j < |s| {
      forall i | 0 <= i < |s| ensures s[i].end <= end || s[j].start <= s[i].start {
        if i < j && end < s[i].end {
          HitCovered(s, i, end - 1);
        }
      }
      GapNotInCover(s, end, s[j].start);
    }
  }

  lemma {:induction false} OverrunAllOutside(s: seq<Interval>, src: seq<Interval>)
    requires Canonical(s)
    ensures OverrunAll(s, src) !! Cover(s)
    decreases |src|
  {
    if src != [] {
      OverrunAllOutside(s, src[..|src| - 1]);
      OverrunOutside(s, src[|src| - 1].start, src[|src| - 1].end);
    }
  }

  /** The walk of `Complement`: nodes before `j` end by `last`, the others start after it. */
  ghost predicate AtNode(s: seq<Interval>, j: nat, last: nat) {
    && (forall i :: 0 <= i < j && i < |s| ==> s[i].end <= last)
    && (forall i :: j <= i < |s| ==> last < s[i].start)
  }

  ghost predicate EndsBefore(s: seq<Interval>, x: nat) {
    forall i :: 0 <= i < |s| ==> s[i].end < x
  }

  /** `res` is the complement up to `last`, where the walk stands in front of node `j`. */
  ghost predicate Walked(s: seq<Interval>, start: nat, end: nat, last: nat, j: nat, res: seq<Interval>)
    requires j <= |s|
  {
    && start <= last && AtNode(s, j, last)
    && (last > start ==> j > 0 && last == s[j - 1].end)
    && (forall i :: 0 <= i < j - 1 ==> s[i].end < end)
    && Cover(res) == Range(start, last) - Cover(s)
    && Proper(res)
    && (Proper(s) ==> Canonical(res) && EndsBefore(res, last))
  }

  lemma GapStep(s: seq<Interval>, res: seq<Interval>, start: nat, end: nat, last: nat, j: nat)
    requires Canonical(s) && j < |s| && last < end && Walked(s, start, end, last, j, res)
    ensures Walked(s, start, end, s[j].end, j + 1, res + [Interval(last, s[j].start)])
  {
    CoverSnoc(res, Interval(last, s[j].start));
    GapNotInCover(s, last, s[j].start);
    NodeInCover(s, j);
  }

  lemma LastGap(s: seq<Interval>, res: seq<Interval>, start: nat, end: nat, last: nat)
    requires Canonical(s) && last < end && Walked(s, start, end, last, |s|, res)
    ensures var all := res + [Interval(last, end)];
            && Cover(all) == Range(start, end) - Cover(s) + Overrun(s, start, end)
            && Proper(all)
            && (Proper(s) ==> Canonical(all))
  {
    CoverSnoc(res, Interval(last, end));
    GapNotInCover(s, last, end);
    BelowIs(s, end, |s|);
  }

  lemma BelowIs(s: seq<Interval>, key: nat, k: nat)
    requires Canonical(s) && k <= |s|
    requires forall i :: 0 <= i < k ==> s[i].start < key
    requires forall i :: k <= i < |s| ==> key <= s[i].start
    ensures Below(s, key) == k
  {
    if k < |s| {
      assert key <= s[k].start;
    }
    var b := Below(s, key);
    if b < |s| {
      assert key <= s[b].start;
    }
  }

  /** What `Complement` returns beyond `end`: the gap from `end` to the next node, when
      `end` itself falls into a gap. */
  ghost function Overrun(s: seq<Interval>, start: nat, end: nat): set<int>
    requires Canonical(s)
  {
    var j := Below(s, end);
    if start < end && end - 1 !in Cover(s) && j < |s| then Range(end, s[j].start) else {}
  }

  /** The walk of `Complement` stopped at node `j - 1`, the first to reach `end`. */
  lemma OverrunFrom(s: seq<Interval>, start: nat, end: nat, j: nat)
    requires Canonical(s) && start < end && 0 < j <= |s|
    requires end <= s[j - 1].end
    requires forall i :: 0 <= i < j - 1 ==> s[i].end < end
    ensures Range(start, s[j - 1].end) - Cover(s) == Range(start, end) - Cover(s) + Overrun(s, start, end)
  {
    var n := s[j - 1];
    NodeInCover(s, j - 1);
    if end <= n.start {
      BelowIs(s, end, j - 1);
      GapNotInCover(s, end, n.start);
      if n.start > end {
        GapNotInCover(s, end - 1, end);
        assert end - 1 in Range(end - 1, end);
      }
    } else {
      assert end - 1 in Range(n.start, n.end);
    }
  }

  ghost predicate Inside(s: seq<Interval>, start: nat, end: nat) {
    forall i :: 0 <= i < |s| ==> start <= s[i].start && s[i].end <= end
  }

  lemma MeetStep(s: seq<Interval>, i: nat, res: seq<Interval>, start: nat, end: nat, x: Interval)
    requires i < |s|
    requires x == Interval(Max(start, s[i].start), Min(end, s[i].end))
    requires Cover(res) == Range(start, end) * Cover(s[..i])
    ensures Cover(res + [x]) == Range(start, end) * Cover(s[..i + 1])
  {
    assert s[..i + 1] == s[..i] + [s[i]];
    CoverSnoc(s[..i], s[i]);
    CoverSnoc(res, x);
    assert Range(x.start, x.end) == Range(start, end) * Range(s[i].start, s[i].end);
  }

  lemma SuffixOutside(s: seq<Interval>, i: nat, start: nat, end: nat)
    requires Canonical(s) && i <= |s|
    requires i < |s| ==> end <= s[i].start
    ensures Range(start, end) * Cover(s) == Range(start, end) * Cover(s[..i])
  {
    assert s == s[..i] + s[i..];
    CoverConcat(s[..i], s[i..]);
    assert forall k :: 0 <= k < |s[i..]| ==> s[i..][k] == s[i + k];
    GapNotInCover(s[i..], start, end);
  }

  lemma UncoveredAt(s: seq<Interval>, start: nat, end: nat)
    requires Canonical(s) && start <= end
    requires forall i :: 0 <= i < |s| && s[i].start <= start ==> s[i].end < end
    ensures start < end ==> !(Range(start, end) <= Cover(s))
  {
    if start < end {
      var x := start;
      if start in Cover(s) {
        var i := NodeOf(s, start);
        x := s[i].end;
        GapNotInCover(s, x, x + 1);
        assert x in Range(x, x + 1);
      }
      assert x in Range(start, end) && x !in Cover(s);
    }
  }

  lemma NodeInCover(s: seq<Interval>, k: nat)
    requires k < |s|
    ensures Range(s[k].start, s[k].end) <= Cover(s)
  {
    CoverSplit(s, k);
  }

  lemma GapNotInCover(s: seq<Interval>, a: int, b: int)
    requires forall i :: 0 <= i < |s| ==> s[i].end <= a || b <= s[i].start
    ensures Range(a, b) !! Cover(s)
  {
    forall x | x in Cover(s) ensures x !in Range(a, b) {
      var i := NodeOf(s, x);
    }
  }

  /** [start, end) is the beginning of a node. */
  ghost predicate FrontOf(s: seq<Interval>, start: nat, end: nat)
    requires Canonical(s)
  {
    var k := Below(s, start);
    k < |s| && s[k].start == start && end <= s[k].end
  }

  /** Node `k` cut down to what it holds from `end` on. */
  ghost function WithoutFront(s: seq<Interval>, k: nat, end: nat): seq<Interval>
    requires k < |s|
  {
    if end < s[k].end then s[k := Interval(end, s[k].end)] else s[..k] + s[k + 1..]
  }

  /** A position between or at the edge of nodes is strictly inside none of them. */
  lemma NotInside(s: seq<Interval>, k: nat, x: nat)
    requires Canonical(s) && k <= |s|
    requires forall i :: 0 <= i < k ==> s[i].end <= x
    requires k < |s| ==> x <= s[k].start || s[k].end <= x
    requires forall i :: k < i < |s| ==> x <= s[i].start
    ensures !StrictlyInside(s, x)
  {
  }

  ghost predicate StrictlyInside(s: seq<Interval>, x: int) {
    exists i :: 0 <= i < |s| && s[i].start < x < s[i].end
  }

  lemma ClearedCover(s: seq<Interval>, start: nat, end: nat)
    requires forall i :: 0 <= i < |s| ==> s[i].end <= start || end <= s[i].start
    ensures Cover(s) - Range(start, end) == Cover(s)
  {
    GapNotInCover(s, start, end);
  }

  lemma CutCover(s: seq<Interval>, k: nat, start: nat, end: nat)
    requires Canonical(s) && k < |s| && s[k].start < start <= end < s[k].end
    ensures Cover(s[..k] + ([Interval(s[k].start, start)] + ([Interval(end, s[k].end)] + s[k + 1..])))
         == Cover(s) - Range(start, end)
  {
    var a, l, r, b := s[..k], [Interval(s[k].start, start)], [Interval(end, s[k].end)], s[k + 1..];
    CoverConcat(a, l + (r + b));
    CoverConcat(l, r + b);
    CoverConcat(r, b);
    CoverOne(l[0]);
    CoverOne(r[0]);
    CoverSplit(s, k);
    assert Range(s[k].start, s[k].end) - Range(start, end) == Range(l[0].start, l[0].end) + Range(r[0].start, r[0].end);
    ClearedCover(a, start, end);
    ClearedCover(b, start, end);
  }

  lemma ExtendCover(s: seq<Interval>, k: nat, iv: Interval, start: nat, end: nat)
    requires k < |s| && start <= end && s[k].start <= s[k].end
    requires s[k].start <= end && start <= s[k].end
    requires iv == Interval(Min(start, s[k].start), Max(s[k].end, end))
    ensures Cover(s[k := iv]) == Cover(s) + Range(start, end)
  {
    var r := s[k := iv];
    CoverSplit(s, k);
    assert r[..k] == s[..k] && r[k + 1..] == s[k + 1..];
    CoverSplit(r, k);
    assert Range(iv.start, iv.end) == Range(s[k].start, s[k].end) + Range(start, end);
  }

  /** Nodes `at` and `at + 1` replaced by `m`. */
  function Merged(s: seq<Interval>, at: nat, m: Interval): (r: seq<Interval>)
    requires at + 1 < |s|
    ensures |r| == |s| - 1
    ensures forall i :: 0 <= i < |r| ==> r[i] == if i < at then s[i] else if i == at then m else s[i + 1]
  {
    s[..at] + [m] + s[at + 2..]
  }

  lemma MergeCover(s: seq<Interval>, at: nat, m: Interval)
    requires at + 1 < |s| && s[at].start <= s[at + 1].start <= s[at].end
    requires m == Interval(s[at].start, Max(s[at].end, s[at + 1].end))
    ensures Cover(Merged(s, at, m)) == Cover(s)
  {
    var a, b := s[..at], s[at + 2..];
    assert s == a + ([s[at]] + ([s[at + 1]] + b));
    CoverConcat(a, [s[at]] + ([s[at + 1]] + b));
    CoverConcat([s[at]], [s[at + 1]] + b);
    CoverConcat([s[at + 1]], b);
    CoverOne(s[at]);
    CoverOne(s[at + 1]);
    CoverConcat(a + [m], b);
    CoverConcat(a, [m]);
    CoverOne(m);
    assert Range(m.start, m.end) == Range(s[at].start, s[at].end) + Range(s[at + 1].start, s[at + 1].end);
  }

  lemma MergeShape(s: seq<Interval>, at: nat, m: Interval)
    requires CanonicalButAt(s, at) && at + 1 < |s|
    requires m == Interval(s[at].start, Max(s[at].end, s[at + 1].end))
    ensures CanonicalButAt(Merged(s, at, m), at)
    ensures Proper(s) ==> Proper(Merged(s, at, m))
  {
  }
}
