/** Reading an old version of a file.  Version files are sparse: each holds the bytes that
    were overwritten while it was the newest version, next to a list of the intervals it
    saved.  A version file without such a list is a whole file.  Opening a version collects
    the newer ones; reading it takes each byte from the first of them that saved it. */
module Versions {
  import opened Contents
  import opened Intervals

  datatype Saved = Whole | Parts(intervals: seq<Interval>) | Unreadable

  /** A version file, or the current file; offsets it never wrote are holes. */
  datatype Item = Item(stamp: nat, saved: Saved, data: seq<Byte>)

  ghost predicate Saves(item: Item, x: int) {
    match item.saved
    case Whole => true
    case Parts(intervals) => x in Cover(intervals)
    case Unreadable => false
  }

  /** An interval list is merged and lies within the file it belongs to. */
  ghost predicate WellFormed(item: Item) {
    item.saved.Parts? ==>
      var s := item.saved.intervals;
      Canonical(s) && Proper(s) && forall i :: 0 <= i < |s| ==> s[i].end <= |item.data|
  }

  // ----- collecting the newer versions -----

  predicate ByStamp(list: seq<Item>) {
    forall i, j :: 0 <= i < j < |list| ==> list[i].stamp <= list[j].stamp
  }

  /** `list` with `item` put where its stamp belongs. */
  function InsertByStamp(list: seq<Item>, item: Item): (r: seq<Item>)
    ensures multiset(r) == multiset(list) + multiset{item}
  {
    if list == [] then [item]
    else if item.stamp < list[0].stamp then [item] + list
    else
      assert list == [list[0]] + list[1..];
      [list[0]] + InsertByStamp(list[1..], item)
  }

  lemma {:induction false} InsertKeepsOrder(list: seq<Item>, item: Item)
    requires ByStamp(list)
    ensures ByStamp(InsertByStamp(list, item))
  {
    if list != [] && list[0].stamp <= item.stamp {
      InsertKeepsOrder(list[1..], item);
      var rest := InsertByStamp(list[1..], item);
      forall k | 0 <= k < |rest| ensures list[0].stamp <= rest[k].stamp {
        assert rest[k] in multiset(rest);
        assert rest[k] in multiset(list[1..]) || rest[k] == item;
      }
    }
  }

  function Sorted(found: seq<Item>): (r: seq<Item>)
    ensures ByStamp(r) && multiset(r) == multiset(found)
  {
    if found == [] then []
    else
      assert found == [found[0]] + found[1..];
      InsertKeepsOrder(Sorted(found[1..]), found[0]);
      InsertByStamp(Sorted(found[1..]), found[0])
  }

  /** The list a version is read through: by stamp, up to the first whole file. */
  method Build(found: seq<Item>) returns (list: seq<Item>)
    ensures list <= Sorted(found)
    ensures forall i :: 0 <= i < |list| - 1 ==> list[i].saved != Whole
    ensures list == Sorted(found) || (list != [] && list[|list| - 1].saved == Whole)
  {
    var sorted := Sorted(found);
    var i := 0;
    while i < |sorted|
      invariant i <= |sorted|
      invariant forall k :: 0 <= k < i ==> sorted[k].saved != Whole
    {
      if sorted[i].saved == Whole {
        i := i + 1;
        break;
      }
      i := i + 1;
    }
    list := sorted[..i];
  }

  /** Item `i` is the first of the list that saved offset `x`. */
  ghost predicate Answers(list: seq<Item>, i: nat, x: int) {
    && i < |list| && Saves(list[i], x)
    && forall k :: 0 <= k < i ==> !Saves(list[k], x)
  }

  /** Cutting the list at the first whole file loses nothing: whoever answers in it has the
      earliest stamp among all the version files found that saved the offset, and somebody
      answers exactly when any of them saved it. */
  lemma EarliestAnswers(found: seq<Item>, list: seq<Item>, x: int)
    requires list <= Sorted(found)
    requires list == Sorted(found) || (list != [] && list[|list| - 1].saved == Whole)
    ensures forall i: nat, f :: Answers(list, i, x) && f in found && Saves(f, x) ==> list[i].stamp <= f.stamp
    ensures (exists i: nat :: Answers(list, i, x)) <==> (exists f :: f in found && Saves(f, x))
    ensures forall i: nat :: Answers(list, i, x) ==> list[i] in found
  {
    forall f | f in found && Saves(f, x) ensures exists i: nat :: Answers(list, i, x) {
      var j := SaverInList(found, list, x, f);
      var _ := SomebodyAnswers(list, j, x);
    }
    forall i: nat, f | Answers(list, i, x) && f in found && Saves(f, x) ensures list[i].stamp <= f.stamp {
      AnswerIsEarliest(found, list, x, i, f);
    }
    forall i: nat | Answers(list, i, x) ensures list[i] in found {
      assert list[i] == Sorted(found)[i];
      assert list[i] in multiset(Sorted(found));
    }
  }

  lemma {:induction false} AnswerIsEarliest(found: seq<Item>, list: seq<Item>, x: int, i: nat, f: Item)
    requires list <= Sorted(found)
    requires list == Sorted(found) || (list != [] && list[|list| - 1].saved == Whole)
    requires Answers(list, i, x) && f in found && Saves(f, x)
    ensures list[i].stamp <= f.stamp
  {
    var j := SaverInList(found, list, x, f);
    FirstIsEarliest(list, Sorted(found), i, j, x);
  }

  lemma {:induction false} FirstIsEarliest(list: seq<Item>, sorted: seq<Item>, i: nat, j: nat, x: int)
    requires list <= sorted && ByStamp(sorted) && Answers(list, i, x) && j < |list| && Saves(list[j], x)
    ensures list[i].stamp <= list[j].stamp
  {
    assert i <= j && list[i] == sorted[i] && list[j] == sorted[j];
  }

  lemma SaverInList(found: seq<Item>, list: seq<Item>, x: int, f: Item) returns (j: nat)
    requires list <= Sorted(found)
    requires list == Sorted(found) || (list != [] && list[|list| - 1].saved == Whole)
    requires f in found && Saves(f, x)
    ensures j < |list| && Saves(list[j], x) && list[j].stamp <= f.stamp
  {
    var sorted := Sorted(found);
    assert f in multiset(sorted);
    var k :| 0 <= k < |sorted| && sorted[k] == f;
    j := if k < |list| then k else |list| - 1;
    assert list[j] == sorted[j];
  }

  lemma {:induction false} SomebodyAnswers(list: seq<Item>, j: nat, x: int) returns (i: nat)
    requires j < |list| && Saves(list[j], x)
    ensures i <= j && Answers(list, i, x)
  {
    if k: nat :| k < j && Saves(list[k], x) {
      i := SomebodyAnswers(list, k, x);
    } else {
      i := j;
    }
  }

  // ----- reading -----

  /** The offsets of [start, end) that an item could answer. */
  ghost function Asked(item: Item, start: nat, end: nat): set<int> {
    match item.saved
    case Whole => Range(start, end)
    case Parts(intervals) => Range(start, end) * Cover(intervals)
    case Unreadable => {}
  }

  /** What should be settled before item `n`: the version's own offsets, and what the items
      before `n` saved. */
  ghost function Settled(list: seq<Item>, n: nat, own: set<int>, start: nat, end: nat): set<int>
    requires n <= |list|
  {
    if n == 0 then own else Settled(list, n - 1, own, start, end) + Asked(list[n - 1], start, end)
  }

  /** No item is asked for a stretch that ends in a gap of what is settled before it. */
  ghost predicate NoOverrun(list: seq<Item>, n: nat, own: set<int>, start: nat, end: nat)
    requires n <= |list|
  {
    n == 0 ||
    (NoOverrun(list, n - 1, own, start, end)
     && Met(Settled(list, n - 1, own, start, end), Asked(list[n - 1], start, end)))
  }

  /** `from` takes every offset from its answering item, and exactly the offsets of
      [start, end) that the version does not hold itself and that some item answers. */
  ghost predicate RightSources(list: seq<Item>, n: nat, own: set<int>, start: nat, end: nat, from: map<int, nat>)
    requires n <= |list|
  {
    && (forall x :: x in from ==> x in Range(start, end) && x !in own && from[x] < n && Answers(list, from[x], x))
    && (forall x, i: nat :: x in Range(start, end) && x !in own && i < n && Answers(list, i, x) ==> x in from)
  }

  /** `buf` with the bytes of `data` at the given offsets, as far as the file reaches. */
  ghost function Filled(buf: map<int, Byte>, data: seq<Byte>, at: set<int>): map<int, Byte> {
    map x | x in buf.Keys + at && (x in buf || 0 <= x < |data|) ::
      if x in at && 0 <= x < |data| then data[x] else buf[x]
  }

  lemma FilledMore(buf: map<int, Byte>, data: seq<Byte>, at: set<int>, iv: Interval, read: nat)
    requires read == if iv.start < |data| then Min(iv.end, |data|) - iv.start else 0
    requires iv.start <= iv.end
    ensures Filled(buf, data, at) + (map x | iv.start <= x < iv.start + read :: data[x])
         == Filled(buf, data, at + Range(iv.start, iv.end))
  {
  }

  /** Read the intervals `parts` of one file into the buffer, and note them as covered. */
  method Fetch(covered: IntervalTree, data: seq<Byte>, parts: seq<Interval>, buf0: map<int, Byte>)
    returns (buf: map<int, Byte>)
    requires covered.Valid() && Proper(covered.nodes) && Proper(parts)
    modifies covered
    ensures covered.Valid() && Proper(covered.nodes)
    ensures buf == Filled(buf0, data, Cover(parts))
    ensures StartsIn(parts, Range(0, |data|)) ==> covered.Offsets() == old(covered.Offsets()) + Cover(parts)
  {
    buf := buf0;
    for j := 0 to |parts|
      invariant covered.Valid() && Proper(covered.nodes)
      invariant buf == Filled(buf0, data, Cover(parts[..j]))
      invariant StartsIn(parts, Range(0, |data|)) ==>
                  covered.Offsets() == old(covered.Offsets()) + Cover(parts[..j])
    {
      var iv := parts[j];
      assert parts[..j + 1] == parts[..j] + [iv];
      CoverSnoc(parts[..j], iv);
      var read := if iv.start < |data| then Min(iv.end, |data|) - iv.start else 0;
      FilledMore(buf0, data, Cover(parts[..j]), iv, read);
      buf := buf + map x | iv.start <= x < iv.start + read :: data[x];
      if read > 0 {
        covered.Insert(iv.start, iv.end);
      }
    }
    assert parts[..|parts|] == parts;
  }

  /** Take from one item what is not covered yet.  What is read is exactly what the item
      saved and nothing covers, unless a stretch of it ends in a gap of what is covered:
      then the offset behind that stretch is read too, although the item did not save it. */
  method ReadItem(covered: IntervalTree, item: Item, start: nat, end: nat, buf0: map<int, Byte>)
    returns (buf: map<int, Byte>, ghost got: set<int>)
    requires covered.Valid() && Proper(covered.nodes) && WellFormed(item) && start <= end
    modifies covered
    ensures covered.Valid() && Proper(covered.nodes)
    ensures buf == Filled(buf0, item.data, got)
    ensures got !! old(covered.Offsets())
    ensures Met(old(covered.Offsets()), Asked(item, start, end)) ==> got == Asked(item, start, end) - old(covered.Offsets())
    ensures !Met(old(covered.Offsets()), Asked(item, start, end)) ==> exists x :: x in got && x !in Asked(item, start, end)
    ensures item.saved != Whole ==> covered.Offsets() == old(covered.Offsets()) + got
  {
    var pieces: seq<Interval> := [];
    match item.saved {
      case Parts(intervals) =>
        var tree := new IntervalTree();
        tree.nodes := intervals;
        pieces := tree.Intersection(start, end);
        PiecesInFile(item, pieces, start, end);
      case Whole =>
        pieces := [Interval(start, end)];
        CoverOne(pieces[0]);
      case Unreadable =>
    }
    assert Cover(pieces) == Asked(item, start, end);
    var parts := covered.ComplementAll(pieces);
    got := Cover(parts);
    OverrunAllOutside(covered.nodes, pieces);
    OverrunMet(covered.nodes, pieces);
    buf := Fetch(covered, item.data, parts, buf0);
  }

  lemma PiecesInFile(item: Item, pieces: seq<Interval>, start: nat, end: nat)
    requires WellFormed(item) && item.saved.Parts?
    requires Cover(pieces) == Range(start, end) * Cover(item.saved.intervals)
    ensures forall parts :: StartsIn(parts, Cover(pieces)) ==> StartsIn(parts, Range(0, |item.data|))
  {
    forall x | x in Cover(pieces) ensures x in Range(0, |item.data|) {
      var i := NodeOf(item.saved.intervals, x);
    }
  }

  /** Offsets `got` are taken from item `n`. */
  ghost function Taken(from: map<int, nat>, n: nat, got: set<int>): (r: map<int, nat>)
    ensures r.Keys == from.Keys + got
  {
    from + map x | x in got :: n
  }

  ghost predicate Reaches(list: seq<Item>, from: map<int, nat>, x: int) {
    x in from && from[x] < |list| && 0 <= x < |list[from[x]].data|
  }

  /** The bytes of the version's own file, replaced by what each offset in `from` was read
      from, as far as that file reaches. */
  ghost function Assembled(buf0: map<int, Byte>, list: seq<Item>, from: map<int, nat>): map<int, Byte> {
    map x | x in buf0.Keys + from.Keys && (x in buf0 || Reaches(list, from, x)) ::
      if Reaches(list, from, x) then list[from[x]].data[x] else buf0[x]
  }

  lemma AssembleMore(buf0: map<int, Byte>, list: seq<Item>, from: map<int, nat>, n: nat, got: set<int>)
    requires n < |list| && got !! from.Keys
    ensures Filled(Assembled(buf0, list, from), list[n].data, got) == Assembled(buf0, list, Taken(from, n, got))
  {
  }

  /** One more item, read without overrun. */
  lemma RightMore(list: seq<Item>, n: nat, own: set<int>, start: nat, end: nat, from: map<int, nat>, got: set<int>)
    requires n < |list| && RightSources(list, n, own, start, end, from)
    requires own + from.Keys == Settled(list, n, own, start, end) && from.Keys !! own
    requires got == Asked(list[n], start, end) - (own + from.Keys)
    ensures RightSources(list, n + 1, own, start, end, Taken(from, n, got))
  {
    var more := Taken(from, n, got);
    forall x | x in more
      ensures x in Range(start, end) && x !in own && more[x] <= n && Answers(list, more[x], x)
    {
      if x in got {
        NobodyBefore(list, n, own, start, end, from, x);
      }
    }
    forall x, i: nat | x in Range(start, end) && x !in own && i <= n && Answers(list, i, x) ensures x in more {
      assert Saves(list[i], x);
    }
  }

  lemma NobodyBefore(list: seq<Item>, n: nat, own: set<int>, start: nat, end: nat, from: map<int, nat>, x: int)
    requires n <= |list| && RightSources(list, n, own, start, end, from)
    requires x in Range(start, end) && x !in own && x !in from
    ensures forall k :: 0 <= k < n ==> !Saves(list[k], x)
  {
    if k: nat :| k < n && Saves(list[k], x) {
      var i := SomebodyAnswers(list, k, x);
      assert false;
    }
  }

  /** An offset taken from an item that did not save it, or outside the range. */
  ghost predicate WrongSource(list: seq<Item>, start: nat, end: nat, from: map<int, nat>) {
    exists x :: x in from && from[x] < |list| && x !in Asked(list[from[x]], start, end)
  }

  lemma WrongIsNotRight(list: seq<Item>, own: set<int>, start: nat, end: nat, from: map<int, nat>)
    requires WrongSource(list, start, end, from)
    ensures !RightSources(list, |list|, own, start, end, from)
  {
    var x :| x in from && from[x] < |list| && x !in Asked(list[from[x]], start, end);
    if x in Range(start, end) {
      assert !Answers(list, from[x], x);
    }
  }

  lemma WrongStays(list: seq<Item>, start: nat, end: nat, from: map<int, nat>, n: nat, got: set<int>)
    requires n < |list| && got !! from.Keys
    requires WrongSource(list, start, end, from) || exists x :: x in got && x !in Asked(list[n], start, end)
    ensures WrongSource(list, start, end, Taken(from, n, got))
  {
    var more := Taken(from, n, got);
    if WrongSource(list, start, end, from) {
      var x :| x in from && from[x] < |list| && x !in Asked(list[from[x]], start, end);
      assert more[x] == from[x];
    } else {
      var x :| x in got && x !in Asked(list[n], start, end);
      assert more[x] == n;
    }
  }

  /** Where the reading stands before item `n`. */
  ghost predicate Progress(list: seq<Item>, n: nat, own: set<int>, start: nat, end: nat, from: map<int, nat>)
    requires n <= |list|
  {
    && from.Keys !! own
    && if NoOverrun(list, n, own, start, end)
       then own + from.Keys == Settled(list, n, own, start, end) && RightSources(list, n, own, start, end, from)
       else WrongSource(list, start, end, from)
  }

  lemma ProgressMore(list: seq<Item>, n: nat, own: set<int>, start: nat, end: nat, from: map<int, nat>, got: set<int>)
    requires n < |list| && Progress(list, n, own, start, end, from) && got !! own + from.Keys
    requires Met(own + from.Keys, Asked(list[n], start, end)) ==> got == Asked(list[n], start, end) - (own + from.Keys)
    requires !Met(own + from.Keys, Asked(list[n], start, end)) ==> exists x :: x in got && x !in Asked(list[n], start, end)
    ensures Progress(list, n + 1, own, start, end, Taken(from, n, got))
  {
    assert Taken(from, n, got).Keys == from.Keys + got;
    if !NoOverrun(list, n, own, start, end) {
      WrongStays(list, start, end, from, n, got);
    } else if Met(Settled(list, n, own, start, end), Asked(list[n], start, end)) {
      RightMore(list, n, own, start, end, from, got);
    } else {
      WrongStays(list, start, end, from, n, got);
    }
  }

  /** The body of the reading loop. */
  method ReadNext(covered: IntervalTree, list: seq<Item>, n: nat, start: nat, end: nat, buf1: map<int, Byte>,
                  ghost own: set<int>, ghost buf0: map<int, Byte>, ghost from1: map<int, nat>)
    returns (buf: map<int, Byte>, ghost from: map<int, nat>)
    requires n < |list| && WellFormed(list[n]) && start <= end
    requires covered.Valid() && Proper(covered.nodes)
    requires buf1 == Assembled(buf0, list, from1)
    requires Progress(list, n, own, start, end, from1) && covered.Offsets() == own + from1.Keys
    modifies covered
    ensures covered.Valid() && Proper(covered.nodes)
    ensures buf == Assembled(buf0, list, from)
    ensures Progress(list, n + 1, own, start, end, from)
    ensures list[n].saved != Whole ==> covered.Offsets() == own + from.Keys
  {
    ghost var got;
    buf, got := ReadItem(covered, list[n], start, end, buf1);
    from := Taken(from1, n, got);
    ItemRead(list, n, own, start, end, buf0, from1, got);
  }

  lemma ItemRead(list: seq<Item>, n: nat, own: set<int>, start: nat, end: nat, buf0: map<int, Byte>, from: map<int, nat>, got: set<int>)
    requires n < |list| && Progress(list, n, own, start, end, from) && got !! own + from.Keys
    requires Met(own + from.Keys, Asked(list[n], start, end)) ==> got == Asked(list[n], start, end) - (own + from.Keys)
    requires !Met(own + from.Keys, Asked(list[n], start, end)) ==> exists x :: x in got && x !in Asked(list[n], start, end)
    ensures Progress(list, n + 1, own, start, end, Taken(from, n, got))
    ensures Filled(Assembled(buf0, list, from), list[n].data, got) == Assembled(buf0, list, Taken(from, n, got))
    ensures own + Taken(from, n, got).Keys == own + from.Keys + got
  {
    ProgressMore(list, n, own, start, end, from, got);
    AssembleMore(buf0, list, from, n, got);
  }

  lemma ReadingStarts(list: seq<Item>, own: set<int>, start: nat, end: nat, buf0: map<int, Byte>)
    ensures Progress(list, 0, own, start, end, map[])
    ensures Assembled(buf0, list, map[]) == buf0
  {
  }

  lemma ReadingEnds(list: seq<Item>, own: set<int>, start: nat, end: nat, from: map<int, nat>)
    requires Progress(list, |list|, own, start, end, from)
    ensures RightSources(list, |list|, own, start, end, from) <==> NoOverrun(list, |list|, own, start, end)
  {
    if WrongSource(list, start, end, from) {
      WrongIsNotRight(list, own, start, end, from);
    }
  }

  /** Read [start, end) of a version.  `from` tells which item each offset was taken from.
      The sources are right exactly when no item is asked for a stretch that ends in a gap of
      what is settled before it. */
  method ReadOld(versioned: IntervalTree, list: seq<Item>, start: nat, end: nat, buf0: map<int, Byte>)
    returns (buf: map<int, Byte>, ghost from: map<int, nat>)
    requires versioned.Valid() && Proper(versioned.nodes) && start <= end
    requires forall i :: 0 <= i < |list| ==> WellFormed(list[i])
    requires forall i :: 0 <= i < |list| - 1 ==> list[i].saved != Whole
    ensures buf == Assembled(buf0, list, from)
    ensures RightSources(list, |list|, versioned.Offsets(), start, end, from)
            <==> NoOverrun(list, |list|, versioned.Offsets(), start, end)
  {
    var covered := new IntervalTree();
    covered.Add(versioned);
    buf, from := buf0, map[];
    ReadingStarts(list, versioned.Offsets(), start, end, buf0);
    for i := 0 to |list|
      invariant covered.Valid() && Proper(covered.nodes)
      invariant buf == Assembled(buf0, list, from)
      invariant Progress(list, i, versioned.Offsets(), start, end, from)
      invariant i == 0 || list[i - 1].saved != Whole ==> covered.Offsets() == versioned.Offsets() + from.Keys
    {
      buf, from := ReadNext(covered, list, i, start, end, buf, versioned.Offsets(), buf0, from);
    }
    ReadingEnds(list, versioned.Offsets(), start, end, from);
  }

  /** The overrun on three files: the version saved [10, 20), a newer one [0, 5), and the
      current file is whole.  Reading [0, 30) takes offset 5 from the newer version, which
      never saved it. */
  lemma OverrunReadsWrong(newer: Item, current: Item)
    requires newer.saved == Parts([Interval(0, 5)]) && current.saved == Whole
    ensures !NoOverrun([newer, current], 2, Range(10, 20), 0, 30)
    ensures Answers([newer, current], 1, 5) && !Saves(newer, 5)
  {
    var list := [newer, current];
    CoverOne(Interval(0, 5));
    var own := Range(10, 20);
    assert Settled(list, 0, own, 0, 30) == own;
    assert 10 in own;
    assert EndsInGap(own, Asked(newer, 0, 30), 4);
    assert !NoOverrun(list, 1, own, 0, 30);
  }
}

/** How version files come about: before a byte of the current file is overwritten, the
    newest version saves it, unless it has saved that byte already; a file about to be
    truncated becomes a version as it is.  Reading a version back gives what the file held
    when the version was made. */
module VersionHistory {
  import opened Contents
  import opened Intervals
  import opened Versions

  datatype Version = Sparse(saved: map<int, Byte>) | Full

  /** The stamp given to the current file. */
  const INT32_MAX := 0x7fff_ffff

  /** `contents[k]` is what the file held when version `k` was made, at time `stamps[k]`. */
  datatype File = File(current: seq<Byte>, versions: seq<Version>, contents: seq<seq<Byte>>, stamps: seq<nat>)

  datatype Step = NewVersion(stamp: nat) | Write(offset: nat, data: seq<Byte>) | Replace(content: seq<Byte>, stamp: nat)

  /** A write needs a version that takes what it overwrites; a new version, a time at which
      none was made yet. */
  predicate Enabled(f: File, s: Step) {
    match s
    case NewVersion(stamp) => Later(f.stamps, stamp)
    case Write(offset, data) => f.versions != [] && f.versions[|f.versions| - 1].Sparse?
    case Replace(content, stamp) => Later(f.stamps, stamp)
  }

  predicate Later(stamps: seq<nat>, stamp: nat) {
    stamp < INT32_MAX && forall k :: 0 <= k < |stamps| ==> stamps[k] < stamp
  }

  function Saving(saved: map<int, Byte>, before: seq<Byte>, offset: nat, length: nat): map<int, Byte> {
    (map x | offset <= x < offset + length && x < |before| :: before[x]) + saved
  }

  function Apply(f: File, s: Step): File
    requires Enabled(f, s)
  {
    match s
    case NewVersion(stamp) =>
      f.(versions := f.versions + [Sparse(map[])], contents := f.contents + [f.current], stamps := f.stamps + [stamp])
    case Write(offset, data) =>
      var last := |f.versions| - 1;
      f.(current := WriteAt(f.current, offset, data),
         versions := f.versions[last := Sparse(Saving(f.versions[last].saved, f.current, offset, |data|))])
    case Replace(content, stamp) =>
      f.(current := content, versions := f.versions + [Full], contents := f.contents + [f.current], stamps := f.stamps + [stamp])
  }

  /** What the file held when version `k` ended. */
  function Next(f: File, k: nat): seq<Byte>
    requires |f.versions| == |f.contents| && k < |f.contents|
  {
    if k + 1 < |f.contents| then f.contents[k + 1] else f.current
  }

  /** A sparse version saved what was overwritten while it was the newest. */
  ghost predicate Faithful(f: File, k: nat)
    requires |f.versions| == |f.contents| && k < |f.contents|
  {
    f.versions[k].Sparse? ==>
      forall x :: 0 <= x < |f.contents[k]| ==>
        if x in f.versions[k].saved then f.versions[k].saved[x] == f.contents[k][x]
        else x < |Next(f, k)| && Next(f, k)[x] == f.contents[k][x]
  }

  ghost predicate Inv(f: File) {
    && |f.versions| == |f.contents| == |f.stamps| && Increasing(f.stamps)
    && forall k :: 0 <= k < |f.contents| ==> Faithful(f, k)
  }

  predicate Increasing(stamps: seq<nat>) {
    && (forall k :: 0 <= k < |stamps| ==> stamps[k] < INT32_MAX)
    && forall j, k :: 0 <= j < k < |stamps| ==> stamps[j] < stamps[k]
  }

  lemma StepKeepsInv(f: File, s: Step)
    requires Inv(f) && Enabled(f, s)
    ensures Inv(Apply(f, s))
  {
    var g := Apply(f, s);
    forall k | 0 <= k < |g.contents| ensures Faithful(g, k) {
      if k < |f.contents| {
        assert Faithful(f, k);
      }
    }
  }

  ghost predicate Run(fs: seq<File>) {
    && fs != [] && fs[0].versions == [] && fs[0].contents == [] && fs[0].stamps == []
    && forall i :: 0 <= i < |fs| - 1 ==> Moves(fs[i], fs[i + 1])
  }

  ghost predicate Moves(f: File, g: File) {
    exists s :: Enabled(f, s) && g == Apply(f, s)
  }

  lemma {:induction false} RunKeepsInv(fs: seq<File>, i: nat)
    requires Run(fs) && i < |fs|
    ensures Inv(fs[i])
  {
    if i > 0 {
      RunKeepsInv(fs, i - 1);
      assert Moves(fs[i - 1], fs[i]);
      var s :| Enabled(fs[i - 1], s) && fs[i] == Apply(fs[i - 1], s);
      StepKeepsInv(fs[i - 1], s);
    }
  }

  /** What a step does to the file: a new version leaves it, a write stores its data and nothing
      else, a replacement puts its content there; the version made holds what was there before. */
  lemma StepStores(f: File, s: Step)
    requires Enabled(f, s)
    ensures var g := Apply(f, s);
            && (s.NewVersion? ==> g.current == f.current)
            && (s.Replace? ==> g.current == s.content)
            && (s.Write? ==>
                  && |g.current| == Max(|f.current|, s.offset + |s.data|)
                  && g.current[s.offset..s.offset + |s.data|] == s.data && g.contents == f.contents && g.stamps == f.stamps
                  && (forall x :: 0 <= x < |f.current| && !(s.offset <= x < s.offset + |s.data|) ==> g.current[x] == f.current[x])
                  && (forall x :: |f.current| <= x < s.offset ==> g.current[x] == 0))
            && (!s.Write? ==> g.contents == f.contents + [f.current] && g.stamps == f.stamps + [s.stamp])
  {
    if s.Write? {
      StoredAt(f.current, s.offset, s.data);
    }
  }

  /** Version `k` was made between states `i` and `i + 1`. */
  ghost predicate MadeAt(fs: seq<File>, i: nat, k: nat) {
    i + 1 < |fs| && |fs[i].versions| == k && |fs[i + 1].versions| == k + 1
  }

  /** What is noted for a version is what the file really held when it was made. */
  lemma {:induction false} VersionMade(fs: seq<File>, j: nat, k: nat) returns (i: nat)
    requires Run(fs) && j < |fs| && Inv(fs[j]) && k < |fs[j].contents|
    ensures i < j && MadeAt(fs, i, k) && fs[i].current == fs[j].contents[k]
  {
    assert j > 0;
    RunKeepsInv(fs, j - 1);
    assert Moves(fs[j - 1], fs[j]);
    var s :| Enabled(fs[j - 1], s) && fs[j] == Apply(fs[j - 1], s);
    if k < |fs[j - 1].contents| {
      i := VersionMade(fs, j - 1, k);
    } else {
      i := j - 1;
    }
  }

  /** The state a run has come to. */
  ghost predicate Reached(fs: seq<File>, f: File)
    ensures Reached(fs, f) ==> Inv(f)
  {
    Run(fs) && (RunKeepsInv(fs, |fs| - 1); f == fs[|fs| - 1])
  }

  /** Version `k`, or the current file behind the last version, as it is on disk. */
  ghost predicate Represents(item: Item, f: File, k: nat)
    requires Inv(f) && k <= |f.versions|
  {
    if k == |f.versions| then item == Item(INT32_MAX, Whole, f.current)
    else item.stamp == f.stamps[k] && match f.versions[k]
      case Full => item.saved == Whole && item.data == f.contents[k]
      case Sparse(saved) =>
        && item.saved.Parts? && WellFormed(item) && Cover(item.saved.intervals) == saved.Keys
        && forall x :: x in saved ==> 0 <= x < |item.data| && item.data[x] == saved[x]
  }

  /** What is newer than version `k`. */
  ghost predicate OnDisk(items: seq<Item>, f: File, k: nat)
    requires Inv(f) && k < |f.versions|
  {
    |items| == |f.versions| - k && forall i :: 0 <= i < |items| ==> Represents(items[i], f, k + 1 + i)
  }

  /** The list through which version `k` is read: the newer version files, then the current
      file, cut after the first whole one. */
  ghost predicate ListOf(list: seq<Item>, f: File, k: nat)
    requires Inv(f) && k < |f.versions|
  {
    && 0 < |list| <= |f.versions| - k
    && (forall i :: 0 <= i < |list| ==> Represents(list[i], f, k + 1 + i))
    && list[|list| - 1].saved == Whole
  }

  lemma {:induction false} WithoutFirst(s: seq<Item>)
    requires s != []
    ensures multiset(s[1..]) == multiset(s) - multiset{s[0]}
  {
    assert s == [s[0]] + s[1..];
  }

  /** Different stamps leave one order. */
  lemma {:induction false} OneOrder(a: seq<Item>, b: seq<Item>)
    requires ByStamp(b) && multiset(a) == multiset(b)
    requires forall i, j :: 0 <= i < j < |a| ==> a[i].stamp < a[j].stamp
    ensures a == b
  {
    if a == [] || b == [] {
      assert |a| == |multiset(a)| == |multiset(b)| == |b|;
    } else {
      assert a[0] in multiset(b) && b[0] in multiset(a);
      assert a[0] == b[0];
      WithoutFirst(a);
      WithoutFirst(b);
      OneOrder(a[1..], b[1..]);
    }
  }

  lemma {:induction false} ByAge(items: seq<Item>, f: File, k: nat)
    requires Inv(f) && k < |f.versions| && OnDisk(items, f, k)
    ensures forall i, j :: 0 <= i < j < |items| ==> items[i].stamp < items[j].stamp
  {
    forall i, j | 0 <= i < j < |items| ensures items[i].stamp < items[j].stamp {
      assert Represents(items[i], f, k + 1 + i) && Represents(items[j], f, k + 1 + j);
    }
  }

  /** In whatever order the files are found, the list built from them is the one through which
      the version is to be read. */
  lemma {:induction false} BuiltList(items: seq<Item>, found: seq<Item>, list: seq<Item>, f: File, k: nat)
    requires Inv(f) && k < |f.versions| && OnDisk(items, f, k) && multiset(found) == multiset(items)
    requires list <= Sorted(found)
    requires list == Sorted(found) || (list != [] && list[|list| - 1].saved == Whole)
    ensures ListOf(list, f, k) && forall i :: 0 <= i < |list| ==> WellFormed(list[i])
  {
    ByAge(items, f, k);
    OneOrder(items, Sorted(found));
    assert Represents(items[|items| - 1], f, |f.versions|);
  }

  /** As long as nobody saved offset `x`, it has not changed. */
  lemma {:induction false} UnsavedUnchanged(list: seq<Item>, f: File, k: nat, i: nat, x: int)
    requires Inv(f) && k < |f.versions| && ListOf(list, f, k) && i < |list|
    requires f.versions[k].Sparse? && 0 <= x < |f.contents[k]| && x !in f.versions[k].saved
    requires forall j :: 0 <= j < i ==> !Saves(list[j], x)
    ensures x < |Next(f, k + i)| && Next(f, k + i)[x] == f.contents[k][x]
  {
    assert Faithful(f, k + i);
    if i > 0 {
      UnsavedUnchanged(list, f, k, i - 1, x);
      assert Represents(list[i - 1], f, k + i) && !Saves(list[i - 1], x);
    }
  }

  /** Every offset is answered, and with the byte the file held when the version was made. */
  lemma AnswerIsHistory(list: seq<Item>, f: File, k: nat, i: nat, x: int)
    requires Inv(f) && k < |f.versions| && ListOf(list, f, k)
    requires f.versions[k].Sparse? && 0 <= x < |f.contents[k]| && x !in f.versions[k].saved
    requires Answers(list, i, x)
    ensures x < |list[i].data| && list[i].data[x] == f.contents[k][x]
  {
    UnsavedUnchanged(list, f, k, i, x);
    assert Represents(list[i], f, k + 1 + i);
    if k + 1 + i < |f.versions| {
      assert Faithful(f, k + 1 + i);
    }
  }

  /** Reading version `k`, when no overrun happens, fills the buffer with what the file held
      when the version was made.  `own` is the version's own file, read first. */
  lemma OldVersionRestored(list: seq<Item>, f: File, k: nat, start: nat, end: nat,
                           own: map<int, Byte>, from: map<int, nat>)
    requires Inv(f) && k < |f.versions| && ListOf(list, f, k) && f.versions[k].Sparse?
    requires forall x :: x in f.versions[k].saved && x in Range(start, end) ==>
               x in own && own[x] == f.versions[k].saved[x]
    requires RightSources(list, |list|, f.versions[k].saved.Keys, start, end, from)
    ensures forall x :: x in Range(start, end) && 0 <= x < |f.contents[k]| ==>
              x in Assembled(own, list, from) && Assembled(own, list, from)[x] == f.contents[k][x]
  {
    forall x | x in Range(start, end) && 0 <= x < |f.contents[k]|
      ensures x in Assembled(own, list, from) && Assembled(own, list, from)[x] == f.contents[k][x]
    {
      assert Faithful(f, k);
      if x !in f.versions[k].saved {
        var i := SomebodyAnswers(list, |list| - 1, x);
        AnswerIsHistory(list, f, k, from[x], x);
      }
    }
  }

  /** Open version `k` and read [start, end) of it, the newer files having been found in any
      order.  Unless an overrun happens, the buffer ends with what the file held in the state of
      the run in which the version was made.  `own` is what was read from the version's own file. */
  method ReadVersion(versioned: IntervalTree, found: seq<Item>, start: nat, end: nat, own: map<int, Byte>,
                     ghost items: seq<Item>, ghost fs: seq<File>, ghost f: File, ghost k: nat)
    returns (list: seq<Item>, buf: map<int, Byte>, ghost made: nat)
    requires Reached(fs, f) && k < |f.versions| && f.versions[k].Sparse?
    requires OnDisk(items, f, k) && multiset(found) == multiset(items)
    requires versioned.Valid() && Proper(versioned.nodes) && versioned.Offsets() == f.versions[k].saved.Keys
    requires forall x :: x in f.versions[k].saved && x in Range(start, end) ==>
               x in own && own[x] == f.versions[k].saved[x]
    requires start <= end
    ensures ListOf(list, f, k)
    ensures MadeAt(fs, made, k)
    ensures NoOverrun(list, |list|, versioned.Offsets(), start, end) ==>
              forall x :: x in Range(start, end) && 0 <= x < |fs[made].current| ==> x in buf && buf[x] == fs[made].current[x]
  {
    made := VersionMade(fs, |fs| - 1, k);
    list := Build(found);
    BuiltList(items, found, list, f, k);
    ghost var from;
    buf, from := ReadOld(versioned, list, start, end, own);
    if NoOverrun(list, |list|, versioned.Offsets(), start, end) {
      OldVersionRestored(list, f, k, start, end, own, from);
    }
  }
}
