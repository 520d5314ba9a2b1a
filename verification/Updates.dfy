/** A whole update of an unmodified file against a master that other nodes change between its
    batches: when it leaves the file coherent. */
module Updates {
  import opened Contents
  import opened Intervals
  import opened FileSync

  /** What happens to the master between two moments. */
  ghost predicate Later(a: Master, b: Master) {
    a.version <= b.version && (a.version == b.version ==> a == b)
  }

  /** The states of the master that the batches meet, all of size `n`. */
  ghost predicate Visits(m: Master, masters: seq<Master>, n: nat) {
    && |m.content| == n
    && (forall i :: 0 <= i < |masters| ==> |masters[i].content| == n && Later(m, masters[i]))
    && (forall i, j :: 0 <= i <= j < |masters| ==> Later(masters[i], masters[j]))
  }

  ghost predicate AllInBounds(batches: seq<seq<Interval>>, n: nat) {
    forall i :: 0 <= i < |batches| ==> InBounds(batches[i], n)
  }

  /** The cache after batches on blocks selected once. */
  ghost function AfterBatches(c: Cache, masters: seq<Master>, blocks: set<int>, batches: seq<seq<Interval>>): (d: Cache)
    requires |masters| == |batches| && AllInBounds(batches, |c.content|)
    requires forall i :: 0 <= i < |masters| ==> |masters[i].content| == |c.content|
    ensures |d.content| == |c.content|
    decreases |batches|
  {
    if batches == [] then c
    else
      var k := |batches| - 1;
      Batched(AfterBatches(c, masters[..k], blocks, batches[..k]), masters[k], blocks, batches[k])
  }

  /** Batch `a` finds a master other than the one before it; `version` is recorded at first. */
  predicate Clears(version: nat, masters: seq<Master>, a: int)
    requires 0 <= a < |masters|
  {
    masters[a].version != if a == 0 then version else masters[a - 1].version
  }

  /** Batch `a` is the last that clears. */
  ghost predicate ClearsLast(version: nat, masters: seq<Master>, a: int) {
    0 <= a < |masters| && Clears(version, masters, a) && forall c :: a < c < |masters| ==> !Clears(version, masters, c)
  }

  /** No chunk leaves the blocks from the last batch on that clears. */
  ghost predicate StaysInside(version: nat, masters: seq<Master>, blocks: set<int>, batches: seq<seq<Interval>>)
    requires |masters| == |batches|
  {
    forall a, b :: ClearsLast(version, masters, a) && a <= b < |batches| ==> Cover(batches[b]) <= blocks
  }

  /** The cache holds the master's byte wherever it is marked. */
  ghost predicate Holds(c: Cache, m: Master) {
    forall o :: o in c.updated && o !in c.modified ==>
      0 <= o < |c.content| && o < |m.content| && c.content[o] == m.content[o]
  }

  /** Nothing is modified locally, and `version` is recorded. */
  ghost predicate At(c: Cache, version: nat) {
    c.localVersion == c.masterVersion == version && c.modified == {}
  }

  /** A batch on an unmodified file. */
  lemma BatchedAt(c: Cache, version: nat, m: Master, blocks: set<int>, chunks: seq<Interval>)
    requires At(c, version) && version <= m.version && |c.content| == |m.content| && InBounds(chunks, |c.content|)
    ensures var d := Batched(c, m, blocks, chunks);
            && At(d, m.version) && d.content == Overlay(c.content, m.content, Cover(chunks) * blocks)
            && d.updated == (if m.version == version then c.updated else {}) + Cover(chunks)
  {
  }

  lemma {:induction false} AfterIsAt(c: Cache, m: Master, masters: seq<Master>, blocks: set<int>, batches: seq<seq<Interval>>)
    requires |masters| == |batches| && AllInBounds(batches, |c.content|) && Visits(m, masters, |c.content|)
    requires At(c, c.masterVersion) && c.masterVersion <= m.version
    ensures At(AfterBatches(c, masters, blocks, batches), if batches == [] then c.masterVersion else masters[|masters| - 1].version)
    decreases |batches|
  {
    if batches != [] {
      var k := |batches| - 1;
      AfterIsAt(c, m, masters[..k], blocks, batches[..k]);
      BatchedAt(AfterBatches(c, masters[..k], blocks, batches[..k]), if k == 0 then c.masterVersion else masters[k - 1].version,
                masters[k], blocks, batches[k]);
    }
  }

  /** A byte outside the blocks is never written. */
  lemma {:induction false} OutsideStays(c: Cache, masters: seq<Master>, blocks: set<int>, batches: seq<seq<Interval>>, o: int)
    requires |masters| == |batches| && AllInBounds(batches, |c.content|)
    requires forall i :: 0 <= i < |masters| ==> |masters[i].content| == |c.content|
    requires 0 <= o < |c.content| && o !in blocks
    ensures AfterBatches(c, masters, blocks, batches).content[o] == c.content[o]
    decreases |batches|
  {
    if batches != [] {
      var k := |batches| - 1;
      OutsideStays(c, masters[..k], blocks, batches[..k], o);
    }
  }

  /** From the last batch on that clears, marks stay. */
  lemma {:induction false} MarkStays(c: Cache, m: Master, masters: seq<Master>, blocks: set<int>, batches: seq<seq<Interval>>,
                                     b: nat, o: int)
    requires |masters| == |batches| && AllInBounds(batches, |c.content|) && Visits(m, masters, |c.content|)
    requires At(c, c.masterVersion) && c.masterVersion <= m.version
    requires b < |batches| && o in Cover(batches[b]) && forall i :: b < i < |masters| ==> !Clears(c.masterVersion, masters, i)
    ensures o in AfterBatches(c, masters, blocks, batches).updated
    decreases |batches|
  {
    var k := |batches| - 1;
    var front := AfterBatches(c, masters[..k], blocks, batches[..k]);
    AfterIsAt(c, m, masters[..k], blocks, batches[..k]);
    BatchedAt(front, if k == 0 then c.masterVersion else masters[k - 1].version, masters[k], blocks, batches[k]);
    if b < k {
      assert !Clears(c.masterVersion, masters, k);
      forall i | b < i < k ensures !Clears(c.masterVersion, masters[..k], i) {
        assert !Clears(c.masterVersion, masters, i);
      }
      MarkStays(c, m, masters[..k], blocks, batches[..k], b, o);
    }
  }

  /** Without clearing, what was selected is marked and right, and stays so. */
  lemma {:induction false} UnclearedHolds(c: Cache, m: Master, masters: seq<Master>, blocks: set<int>, batches: seq<seq<Interval>>)
    requires |masters| == |batches| && AllInBounds(batches, |c.content|) && Visits(m, masters, |c.content|)
    requires At(c, m.version) && Holds(c, m) && Selected(c, blocks)
    requires forall i :: 0 <= i < |masters| ==> !Clears(c.masterVersion, masters, i)
    ensures var d := AfterBatches(c, masters, blocks, batches); At(d, m.version) && Holds(d, m) && c.updated <= d.updated
    decreases |batches|
  {
    if batches != [] {
      var k := |batches| - 1;
      forall i | 0 <= i < k ensures !Clears(c.masterVersion, masters[..k], i) {
        assert !Clears(c.masterVersion, masters, i);
      }
      UnclearedHolds(c, m, masters[..k], blocks, batches[..k]);
      assert masters[k] == m by {
        SameMaster(c.masterVersion, m, masters, k);
      }
      var front := AfterBatches(c, masters[..k], blocks, batches[..k]);
      BatchedAt(front, m.version, m, blocks, batches[k]);
      CopiedHolds(c, front, m, blocks, batches[k]);
    }
  }

  lemma {:induction false} SameMaster(version: nat, m: Master, masters: seq<Master>, k: nat)
    requires k < |masters| && Visits(m, masters, |m.content|) && version == m.version
    requires forall i :: 0 <= i <= k ==> !Clears(version, masters, i)
    ensures masters[k] == m
  {
    if k > 0 {
      SameMaster(version, m, masters, k - 1);
    }
    assert !Clears(version, masters, k) && Later(m, masters[k]);
  }

  lemma CopiedHolds(c: Cache, front: Cache, m: Master, blocks: set<int>, chunks: seq<Interval>)
    requires At(front, m.version) && Holds(front, m) && c.updated <= front.updated && Selected(c, blocks) && c.modified == {}
    requires |c.content| == |front.content| == |m.content| && InBounds(chunks, |c.content|)
    ensures Holds(Batched(front, m, blocks, chunks), m)
  {
    var d := Batched(front, m, blocks, chunks);
    BatchedAt(front, m.version, m, blocks, chunks);
    forall o | o in d.updated ensures 0 <= o < |d.content| && d.content[o] == m.content[o] {
      if o in Cover(chunks) {
        var i := NodeOf(chunks, o);
        assert o in blocks || o in front.updated;
      }
    }
  }

  /** From the last batch on that clears, chunks inside the blocks make the file right. */
  lemma {:induction false} ClearedHolds(c: Cache, m: Master, masters: seq<Master>, blocks: set<int>, batches: seq<seq<Interval>>, a: nat)
    requires |masters| == |batches| && AllInBounds(batches, |c.content|) && Visits(m, masters, |c.content|)
    requires At(c, c.masterVersion) && c.masterVersion <= m.version && ClearsLast(c.masterVersion, masters, a)
    requires forall b :: a <= b < |batches| ==> Cover(batches[b]) <= blocks
    ensures Holds(AfterBatches(c, masters, blocks, batches), masters[|masters| - 1])
    decreases |batches|
  {
    var k := |batches| - 1;
    var front := AfterBatches(c, masters[..k], blocks, batches[..k]);
    var version := if k == 0 then c.masterVersion else masters[k - 1].version;
    AfterIsAt(c, m, masters[..k], blocks, batches[..k]);
    BatchedAt(front, version, masters[k], blocks, batches[k]);
    if a < k {
      assert !Clears(c.masterVersion, masters, k) && Later(masters[k - 1], masters[k]);
      assert Clears(c.masterVersion, masters[..k], a);
      forall i | a < i < k ensures !Clears(c.masterVersion, masters[..k], i) {
        assert !Clears(c.masterVersion, masters, i);
      }
      ClearedHolds(c, m, masters[..k], blocks, batches[..k], a);
      InsideHolds(front, front.updated, masters[k], blocks, batches[k]);
    } else {
      assert Clears(c.masterVersion, masters, k);
      InsideHolds(front, {}, masters[k], blocks, batches[k]);
    }
  }

  lemma InsideHolds(front: Cache, right: set<int>, m: Master, blocks: set<int>, chunks: seq<Interval>)
    requires |front.content| == |m.content| && InBounds(chunks, |m.content|) && Cover(chunks) <= blocks
    requires forall o :: o in right ==> 0 <= o < |m.content| && front.content[o] == m.content[o]
    ensures var content := Overlay(front.content, m.content, Cover(chunks) * blocks);
            forall o :: o in right + Cover(chunks) ==> 0 <= o < |content| && content[o] == m.content[o]
  {
    forall o | o in Cover(chunks) ensures 0 <= o < |m.content| {
      var i := NodeOf(chunks, o);
    }
  }

  /** The same versions, whatever the contents. */
  ghost predicate SameVersions(masters: seq<Master>, ms: seq<Master>) {
    |ms| == |masters| && forall i :: 0 <= i < |ms| ==> ms[i].version == masters[i].version
  }

  /** The update of an unmodified file leaves it coherent, whatever all sides hold, exactly when
      no chunk leaves the blocks from the last batch on that clears the marks. */
  lemma UpdateSafeExactly(s: State, masters: seq<Master>, blocks: set<int>, batches: seq<seq<Interval>>)
    requires Inv(s) && s.cache.localVersion == s.cache.masterVersion && Selected(s.cache, blocks)
    requires |masters| == |batches| > 0 && AllInBounds(batches, |s.cache.content|) && Visits(s.master, masters, |s.cache.content|)
    ensures (forall t: State, ms: seq<Master> |
               Inv(t) && Alike(s, t) && SameVersions(masters, ms) && Visits(t.master, ms, |t.cache.content|) ::
               Holds(AfterBatches(t.cache, ms, blocks, batches), ms[|ms| - 1]))
            <==> StaysInside(s.cache.masterVersion, masters, blocks, batches)
  {
    if StaysInside(s.cache.masterVersion, masters, blocks, batches) {
      forall t: State, ms: seq<Master> |
        Inv(t) && Alike(s, t) && SameVersions(masters, ms) && Visits(t.master, ms, |t.cache.content|)
        ensures Holds(AfterBatches(t.cache, ms, blocks, batches), ms[|ms| - 1])
      {
        SameClears(s.cache.masterVersion, masters, ms);
        UpdateSafe(t, ms, blocks, batches);
      }
    } else {
      var a, b :| ClearsLast(s.cache.masterVersion, masters, a) && a <= b < |batches| && !(Cover(batches[b]) <= blocks);
      var o :| o in Cover(batches[b]) && o !in blocks;
      var t, ms := StaleUpdate(s, masters, blocks, batches, a, b, o);
      assert Inv(t) && Alike(s, t) && SameVersions(masters, ms) && Visits(t.master, ms, |t.cache.content|);
    }
  }

  lemma SameClears(version: nat, masters: seq<Master>, ms: seq<Master>)
    requires SameVersions(masters, ms)
    ensures forall a :: ClearsLast(version, ms, a) <==> ClearsLast(version, masters, a)
  {
    assert forall a :: 0 <= a < |ms| ==> (Clears(version, ms, a) <==> Clears(version, masters, a));
  }

  lemma {:induction false} LastClear(version: nat, masters: seq<Master>, a: nat) returns (b: nat)
    requires a < |masters| && Clears(version, masters, a)
    ensures ClearsLast(version, masters, b)
    decreases |masters| - a
  {
    if c :| a < c < |masters| && Clears(version, masters, c) {
      b := LastClear(version, masters, c);
    } else {
      b := a;
    }
  }

  lemma UpdateSafe(t: State, ms: seq<Master>, blocks: set<int>, batches: seq<seq<Interval>>)
    requires Inv(t) && t.cache.localVersion == t.cache.masterVersion && Selected(t.cache, blocks)
    requires |ms| == |batches| > 0 && AllInBounds(batches, |t.cache.content|) && Visits(t.master, ms, |t.cache.content|)
    requires StaysInside(t.cache.masterVersion, ms, blocks, batches)
    ensures Holds(AfterBatches(t.cache, ms, blocks, batches), ms[|ms| - 1])
  {
    var c, version := t.cache, t.cache.masterVersion;
    if a :| 0 <= a < |ms| && Clears(version, ms, a) {
      var last := LastClear(version, ms, a);
      ClearedHolds(c, t.master, ms, blocks, batches, last);
    } else {
      assert !Clears(version, ms, 0) && Later(t.master, ms[0]);
      assert Coherent(t) && t.history[version] == t.master.content;
      forall o | o in c.updated ensures 0 <= o < |c.content| && c.content[o] == t.master.content[o] {
        assert HoldsMasterByte(t, o);
      }
      UnclearedHolds(c, t.master, ms, blocks, batches);
      SameMaster(version, t.master, ms, |ms| - 1);
    }
  }

  /** From version `version` on the master has another byte at `o`. */
  function OtherByte(m: Master, version: nat, o: nat, b: Byte): Master {
    if m.version < version || |m.content| <= o then m else m.(content := m.content[o := b])
  }

  lemma OtherVisits(m: Master, masters: seq<Master>, version: nat, o: nat, b: Byte) returns (ms: seq<Master>)
    requires Visits(m, masters, |m.content|) && o < |m.content|
    ensures SameVersions(masters, ms) && Visits(OtherByte(m, version, o, b), ms, |m.content|)
    ensures forall i :: 0 <= i < |ms| && version <= masters[i].version ==> ms[i].content[o] == b
  {
    ms := seq(|masters|, j requires 0 <= j < |masters| => OtherByte(masters[j], version, o, b));
  }

  lemma ClearingIsNewer(version: nat, m: Master, masters: seq<Master>, a: nat)
    requires Visits(m, masters, |m.content|) && a < |masters| && Clears(version, masters, a) && version <= m.version
    ensures version < masters[a].version
  {
    assert a > 0 ==> Later(masters[a - 1], masters[a]) && Later(m, masters[a - 1]);
    assert Later(m, masters[a]);
  }

  lemma StaleUpdate(s: State, masters: seq<Master>, blocks: set<int>, batches: seq<seq<Interval>>, a: nat, b: nat, o: int)
    returns (t: State, ms: seq<Master>)
    requires Inv(s) && s.cache.localVersion == s.cache.masterVersion
    requires |masters| == |batches| > 0 && AllInBounds(batches, |s.cache.content|) && Visits(s.master, masters, |s.cache.content|)
    requires ClearsLast(s.cache.masterVersion, masters, a) && a <= b < |batches| && o in Cover(batches[b]) && o !in blocks
    ensures Inv(t) && Alike(s, t) && SameVersions(masters, ms) && Visits(t.master, ms, |t.cache.content|)
    ensures !Holds(AfterBatches(t.cache, ms, blocks, batches), ms[|ms| - 1])
  {
    var c, version := s.cache, masters[a].version;
    var i := NodeOf(batches[b], o);
    var other: Byte := if c.content[o] == 0 then 1 else 0;
    ClearingIsNewer(c.masterVersion, s.master, masters, a);
    t := StaleStart(s, version, o, other);
    ms := OtherVisits(s.master, masters, version, o, other);
    SameClears(c.masterVersion, masters, ms);
    OutsideStays(t.cache, ms, blocks, batches, o);
    MarkStays(t.cache, t.master, ms, blocks, batches, b, o);
    AfterIsAt(t.cache, t.master, ms, blocks, batches);
    assert Later(masters[a], masters[|masters| - 1]);
  }

  /** The start with that byte on the master, if the master is there already. */
  lemma StaleStart(s: State, version: nat, o: nat, other: Byte) returns (t: State)
    requires Inv(s) && s.cache.masterVersion < version && o < |s.cache.content|
    requires s.cache.localVersion == s.cache.masterVersion
    ensures Inv(t) && Alike(s, t) && t.cache == s.cache && t.master == OtherByte(s.master, version, o, other)
  {
    var m := OtherByte(s.master, version, o, other);
    t := State(s.cache, m, s.history[m.version := m.content]);
    forall x | x in t.cache.updated && x !in t.cache.modified ensures HoldsMasterByte(t, x) {
      assert HoldsMasterByte(s, x);
    }
  }
}
