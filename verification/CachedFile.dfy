/** The cached file as the source keeps it: fields and interval trees changed in place.
    Writing, clearing, truncating, reintegrating and resolving a conflict are each proved to be
    a step of `FileSync`, and an update to be a run of steps unless a chunk leaves the blocks once
    the marks were cleared; what an update of that kind may leave is `UpdateSafeExactly`. */
module CachedFile {
  import opened Contents
  import opened Intervals
  import opened FileSync
  import opened ChunkPlan
  import opened Updates

  const WORD: nat := 0x1_0000_0000_0000_0000

  /** Unsigned 64-bit difference and sum. */
  function Sub64(a: nat, b: nat): nat { (a - b) % WORD }

  function Add64(a: nat, b: nat): nat { (a + b) % WORD }

  class MasterFile {
    var content: seq<Byte>
    var version: nat

    ghost function View(): Master reads this { Master(content, version) }
  }

  class RegularFile {
    var content: seq<Byte>
    var localVersion: nat
    var masterVersion: nat
    var complete: bool
    const updated: IntervalTree
    const modified: IntervalTree

    ghost predicate Valid()
      reads this, updated, modified
    {
      && updated != modified && updated.Valid() && modified.Valid()
      && updated.Offsets() <= Range(0, |content|)
      && modified.Offsets() <= Range(0, |content|)
    }

    /** No interval, not even an empty one, lies behind the end of the file. */
    ghost predicate InFile()
      reads this, updated, modified
    {
      Within(updated.nodes, |content|) && Within(modified.nodes, |content|)
    }

    ghost function View(): Cache
      reads this, updated, modified
    {
      Cache(content, localVersion, masterVersion, complete, updated.Offsets(), modified.Offsets())
    }

    /** A file just created from an entry of the master's directory: as long as the
        master's, nothing fetched yet. */
    constructor (m: MasterFile)
      ensures Valid() && InFile() && fresh(updated) && fresh(modified)
      ensures Fresh(State(View(), m.View(), map[m.version := m.content]))
    {
      content := seq(|m.content|, _ => 0);
      localVersion, masterVersion := m.version, m.version;
      complete := |m.content| == 0;
      updated := new IntervalTree();
      modified := new IntervalTree();
      new;
      if complete {
        updated.Insert(0, 0);
      }
    }

    /** Write to a cached file.  The data is stored, the other bytes stay, a gap is filled with
        zeroes; what was written is marked, with the updated bytes next to it in the same blocks
        of MODIFIED_BLOCK_SIZE bytes. */
    method Write(offset: nat, data: seq<Byte>) returns (wide: Interval)
      requires Valid()
      modifies this, updated, modified
      ensures Valid()
      ensures MayWrite(old(View()), offset, data, wide)
      ensures View() == Written(old(View()), offset, data, wide)
      ensures |content| == Max(old(|content|), offset + |data|) && content[offset..offset + |data|] == data
      ensures forall o :: 0 <= o < old(|content|) && !(offset <= o < offset + |data|) ==> content[o] == old(content)[o]
      ensures forall o :: old(|content|) <= o < offset ==> content[o] == 0
      ensures localVersion == old(localVersion) + 1 && Range(offset, offset + |data|) <= modified.Offsets()
      ensures Widest(old(updated.Offsets()), offset, |data|, wide)
      ensures data != [] && old(Proper(modified.nodes)) ==> Proper(modified.nodes)
      ensures old(InFile()) ==> InFile()
    {
      StoredAt(content, offset, data);
      var size := |content|;
      content := WriteAt(content, offset, data);
      localVersion := localVersion + 1;
      wide := MarkWritten(offset, |data|, size);
    }

    /** Mark what was written to a file that had `size` bytes. */
    method MarkWritten(offset: nat, count: nat, size: nat) returns (wide: Interval)
      requires updated != modified && updated.Valid() && modified.Valid() && updated.Offsets() <= Range(0, size)
      modifies updated, modified
      ensures updated.Valid() && modified.Valid()
      ensures wide.start <= Min(offset, size) && offset + count <= wide.end <= Max(size, offset + count)
      ensures Range(wide.start, wide.end) - Range(Min(offset, size), offset + count) <= old(updated.Offsets())
      ensures Widest(old(updated.Offsets()), offset, count, wide)
      ensures updated.Offsets() == old(updated.Offsets()) + Range(wide.start, wide.end)
      ensures modified.Offsets() == old(modified.Offsets()) + Range(wide.start, wide.end)
      ensures 0 < count && old(Proper(modified.nodes)) ==> Proper(modified.nodes)
      ensures forall n: nat :: wide.end <= n && old(Within(updated.nodes, n)) ==> Within(updated.nodes, n)
      ensures forall n: nat :: wide.end <= n && old(Within(modified.nodes, n)) ==> Within(modified.nodes, n)
    {
      var start := offset / MODIFIED_BLOCK_SIZE * MODIFIED_BLOCK_SIZE;
      var end := (offset + count + MODIFIED_BLOCK_SIZE - 1) / MODIFIED_BLOCK_SIZE * MODIFIED_BLOCK_SIZE;
      var blocks := updated.Intersection(start, end);
      var from := Min(offset, size);
      wide := Widened(blocks, from, offset + count);
      assert wide.end <= Max(size, offset + count) by {
        if wide.end > offset + count {
          assert wide.end - 1 in Range(wide.start, wide.end) - Range(from, offset + count);
        }
      }
      updated.Insert(wide.start, wide.end);
      modified.Insert(wide.start, wide.end);
    }

    /** [start, end) joined with every block that touches it. */
    static method Widened(blocks: seq<Interval>, start: nat, end: nat) returns (w: Interval)
      requires Canonical(blocks) && start <= end
      ensures w.start <= start <= end <= w.end
      ensures Range(w.start, w.end) - Range(start, end) <= Cover(blocks)
      ensures (w.start > 0 ==> w.start - 1 !in Cover(blocks)) && w.end !in Cover(blocks)
    {
      w := Interval(start, end);
      var i := 0;
      while i < |blocks|
        invariant i <= |blocks| && w.start <= start <= end <= w.end
        invariant Range(w.start, w.end) - Range(start, end) <= Cover(blocks)
        invariant forall k :: 0 <= k < i ==> blocks[k].end < w.start || (w.start <= blocks[k].start && blocks[k].end <= w.end)
      {
        if blocks[i].end < w.start {
          i := i + 1;
          continue;
        }
        if blocks[i].start > w.end {
          break;
        }
        NodeInCover(blocks, i);
        w := Interval(Min(w.start, blocks[i].start), Max(w.end, blocks[i].end));
        i := i + 1;
      }
      NothingTouches(blocks, w, i);
    }

    /** Forget what was updated, because the master is at a new version. */
    method ClearUpdatedTree(version: nat)
      requires Valid()
      modifies this, updated
      ensures Valid()
      ensures View() == Cleared(old(View()), version)
      ensures masterVersion == version && !complete && content == old(content)
      ensures updated.Offsets() == modified.Offsets() == old(modified.Offsets())
      ensures localVersion == old(localVersion) || localVersion == version || (old(localVersion > masterVersion) && localVersion == version + 1)
      ensures localVersion >= old(localVersion) && localVersion >= version && (old(localVersion > masterVersion) ==> localVersion > version)
    {
      complete := false;
      if localVersion > masterVersion {
        if localVersion <= version {
          localVersion := version + 1;
        }
      } else {
        if localVersion < version {
          localVersion := version;
        }
      }
      masterVersion := version;
      updated.Empty();
      updated.Add(modified);
    }

    /** Cut or extend the file to the master's size, but never below a local modification:
        every modified byte stays, and stays marked. */
    method TruncateLocal(size: nat) returns (kept: nat)
      requires Valid() && |content| < WORD - 1 && size < WORD - 1 && LastEnd(modified.nodes) < WORD - 1
      modifies this, updated, modified
      ensures Valid() && kept == Max(size, old(LastEnd(modified.nodes)))
      ensures View() == Truncated(old(View()), size, kept)
      ensures |content| == kept && modified.Offsets() == old(modified.Offsets())
      ensures forall o :: 0 <= o < kept ==> content[o] == if o < old(|content|) then old(content)[o] else 0
      ensures kept != old(|content|) ==> updated.Offsets() == old(updated.Offsets()) * Range(0, kept) + Range(size, kept)
      ensures old(Proper(modified.nodes)) ==> MayTruncate(old(View()), size, kept)
    {
      kept := Max(size, LastEnd(modified.nodes));
      WithinLast(modified.nodes, kept);
      if Proper(modified.nodes) {
        KeepsLast(View(), modified.nodes, size);
      }
      if kept != |content| {
        ChangeSize(size, kept);
      }
    }

    /** Cut or extend the file to `kept` bytes, of which the master has `size`. */
    method ChangeSize(size: nat, kept: nat)
      requires Valid() && |content| < WORD - 1 && size <= kept < WORD - 1 && kept != |content|
      requires modified.Offsets() <= Range(0, kept)
      modifies this, updated, modified
      ensures Valid() && View() == Truncated(old(View()), size, kept)
    {
      CutOff(updated.Offsets(), |content|, kept);
      CutOff(modified.Offsets(), |content|, kept);
      content := Resized(content, kept);
      updated.Delete(kept, WORD - 1);
      modified.Delete(kept, WORD - 1);
      if kept > size {
        updated.Insert(size, kept);
      }
    }

    /** The blocks of [start, end) to be fetched: neither updated nor modified.  They are
        exactly those bytes when no part runs over its end up to the next node; in every
        case they include those bytes and none that is modified. */
    method GetBlocksForUpdating(start: nat, end: nat) returns (blocks: seq<Interval>)
      requires Valid() && start <= end
      ensures Proper(blocks)
      ensures Range(start, end) - updated.Offsets() - modified.Offsets() <= Cover(blocks)
      ensures Cover(blocks) !! modified.Offsets()
      ensures modified.nodes == [] && Within(updated.nodes, end) ==>
                Cover(blocks) == Range(start, end) - updated.Offsets()
      ensures InFile() && |content| == end ==> Cover(blocks) <= Range(0, |content|)
      ensures start == end ==> blocks == []
    {
      var tmp := updated.Complement(start, end);
      blocks := modified.ComplementAll(tmp);
      OverrunAllOutside(modified.nodes, tmp);
      if Within(updated.nodes, end) {
        NoOverrun(updated.nodes, start, end);
        if InFile() && |content| == end {
          OverrunAllWithin(modified.nodes, tmp, |content|);
        }
        if modified.nodes == [] {
          NoOverrunAll(tmp);
        }
      }
    }

    // ----- update -----

    /** Mark the chunks whose checksums agree, and say which ones they are. */
    method ConfirmEqual(m: MasterFile, chunks: seq<Interval>) returns (same: seq<bool>)
      requires Valid() && |m.content| == |content|
      requires InBounds(chunks, |content|) && Proper(chunks)
      modifies updated, modified
      ensures Valid()
      ensures |same| == |chunks|
      ensures forall i :: 0 <= i < |chunks| ==> (same[i] <==> SameOn(content, m.content, chunks[i]))
      ensures updated.Offsets() == old(updated.Offsets()) + EqualBytes(content, m.content, chunks)
      ensures modified.Offsets() == old(modified.Offsets()) - EqualBytes(content, m.content, chunks)
      ensures old(Proper(updated.nodes)) ==> Proper(updated.nodes)
      ensures old(Proper(modified.nodes)) ==> Proper(modified.nodes)
    {
      same := [];
      for i := 0 to |chunks|
        invariant Valid()
        invariant |same| == i
        invariant forall k :: 0 <= k < i ==> (same[k] <==> SameOn(content, m.content, chunks[k]))
        invariant updated.Offsets() == old(updated.Offsets()) + EqualBytes(content, m.content, chunks[..i])
        invariant modified.Offsets() == old(modified.Offsets()) - EqualBytes(content, m.content, chunks[..i])
        invariant old(Proper(updated.nodes)) ==> Proper(updated.nodes)
        invariant old(Proper(modified.nodes)) ==> Proper(modified.nodes)
      {
        assert chunks[..i + 1][..i] == chunks[..i];
        var equal := ConfirmOne(m, chunks[i]);
        same := same + [equal];
      }
      assert chunks[..|chunks|] == chunks;
    }

    /** Mark one chunk updated if it is the same on both sides. */
    method ConfirmOne(m: MasterFile, x: Interval) returns (equal: bool)
      requires Valid() && |m.content| == |content| && x.start < x.end <= |content|
      modifies updated, modified
      ensures Valid() && (equal <==> SameOn(content, m.content, x))
      ensures updated.Offsets() == old(updated.Offsets()) + if equal then Range(x.start, x.end) else {}
      ensures modified.Offsets() == old(modified.Offsets()) - if equal then Range(x.start, x.end) else {}
      ensures old(Proper(updated.nodes)) ==> Proper(updated.nodes)
      ensures old(Proper(modified.nodes)) ==> Proper(modified.nodes)
    {
      SameSlice(content, m.content, x);
      equal := content[x.start..x.end] == m.content[x.start..x.end];
      if equal {
        modified.Delete(x.start, x.end);
        updated.Insert(x.start, x.end);
      }
    }

    /** Fetch one chunk: the bytes of the blocks come from the master, the others stay.
        The splice loop visits the blocks that overlap the chunk; see `SpliceAsWritten`. */
    method CopyChunk(m: MasterFile, chunk: Interval, blocks: seq<Interval>)
      requires Valid() && |m.content| == |content|
      requires chunk.start < chunk.end <= |content|
      modifies this`content, updated
      ensures Valid()
      ensures View() == Copied(old(View()), m.View(), chunk, Cover(blocks))
      ensures old(Proper(updated.nodes)) ==> Proper(updated.nodes)
    {
      var buf := m.content[chunk.start..chunk.end];
      var j := 0;
      while j < |blocks| && blocks[j].end < chunk.start
        invariant j <= |blocks|
        invariant forall k :: 0 <= k < j ==> blocks[k].end < chunk.start
      {
        j := j + 1;
      }
      if j < |blocks| && blocks[j].start <= chunk.start && chunk.end <= blocks[j].end {
        NodeInCover(blocks, j);
        content := Patch(content, chunk.start, buf);
      } else {
        var buf2 := Splice(content[chunk.start..chunk.end], buf, chunk, blocks, j);
        content := Patch(content, chunk.start, buf2);
      }
      assert content == Overlay(old(content), m.content, Range(chunk.start, chunk.end) * Cover(blocks));
      updated.Insert(chunk.start, chunk.end);
    }

    /** `mine` with the bytes of `theirs` that lie in a block. */
    static method Splice(mine: seq<Byte>, theirs: seq<Byte>, chunk: Interval, blocks: seq<Interval>, first: nat)
      returns (r: seq<Byte>)
      requires |mine| == |theirs| == chunk.end - chunk.start && first <= |blocks|
      requires forall k :: 0 <= k < first ==> blocks[k].end < chunk.start
      ensures |r| == |mine|
      ensures forall i :: 0 <= i < |r| ==> r[i] == if chunk.start + i in Cover(blocks) then theirs[i] else mine[i]
    {
      r := mine;
      for j := first to |blocks|
        invariant |r| == |mine|
        invariant forall i :: 0 <= i < |r| ==> r[i] == if chunk.start + i in Cover(blocks[first..j]) then theirs[i] else mine[i]
      {
        var start, end := Max(blocks[j].start, chunk.start), Min(blocks[j].end, chunk.end);
        assert blocks[first..j + 1] == blocks[first..j] + [blocks[j]];
        CoverSnoc(blocks[first..j], blocks[j]);
        if start < end {
          r := Patch(r, start - chunk.start, theirs[start - chunk.start..end - chunk.start]);
        }
      }
      assert blocks == blocks[..first] + blocks[first..|blocks|];
      CoverConcat(blocks[..first], blocks[first..|blocks|]);
      GapNotInCover(blocks[..first], chunk.start, chunk.end);
      forall i | 0 <= i < |r|
        ensures r[i] == if chunk.start + i in Cover(blocks) then theirs[i] else mine[i]
      {
        assert chunk.start + i in Range(chunk.start, chunk.end);
      }
    }

    /** One batch of an update: detect a new version, mark the equal chunks, fetch the others. */
    method UpdateBatch(m: MasterFile, blocks: seq<Interval>, chunks: seq<Interval>)
      requires Valid() && |m.content| == |content|
      requires InBounds(chunks, |content|) && Proper(chunks)
      modifies this, updated, modified
      ensures Valid() && View() == Batched(old(View()), m.View(), Cover(blocks), chunks)
    {
      if localVersion == masterVersion && masterVersion != m.version {
        ClearUpdatedTree(m.version);
      }
      EqualBytesCovered(content, m.content, chunks);
      var same := ConfirmEqual(m, chunks);
      CopyDiffering(m, blocks, chunks, same);
    }

    /** Update the whole file.  `others(b)` is what other nodes have made of the master when batch
        `b` is fetched.  Unless a batch found the master moved and it or a later one has a chunk
        that leaves the blocks, the update is a run of steps of the machine.  If the master stays
        at the recorded version, what was not modified locally becomes its content. */
    method UpdateFile(m: MasterFile, others: nat -> Master, ghost s: State)
      returns (ghost steps: seq<Step>, ghost t: State, ghost plan: Update)
      requires Valid() && s.cache == View() && s.master == m.View() && Moving(s.master, others, |content|)
      requires content != [] ==> InFile()
      modifies this, updated, modified, m
      ensures Valid() && plan.Follows(old(View()), others) && Selected(old(View()), plan.blocks)
      ensures View() == plan.Last().(complete := complete) && (plan.Last().complete ==> complete)
      ensures content != [] ==> (complete <==> plan.Last().complete || Range(0, |content|) <= updated.Offsets())
      ensures content == [] && old(updated.nodes) == [] ==> complete == old(complete)
      ensures plan.Safe(others) ==>
                && Leads(s, steps, t) && t.cache == View() && t.master == m.View()
                && forall i :: 0 <= i < |steps| ==> KeepsSize(steps[i], |content|)
      ensures (forall b :: others(b) == s.master) && s.master.version == old(masterVersion) && Matches(s) ==>
                Updated(old(View()), View(), s.master.content)
    {
      plan := UpdateContent(m, others);
      var _ := MarkIfCovered();
      steps, t := MarkedOutcome(s, others, plan, View());
    }

    /** Fetch what is neither updated nor modified. */
    method UpdateContent(m: MasterFile, others: nat -> Master) returns (ghost plan: Update)
      requires Valid() && Moving(m.View(), others, |content|)
      requires content != [] ==> InFile()
      modifies this, updated, modified, m
      ensures Valid() && |content| == old(|content|)
      ensures plan.Follows(old(View()), others) && Selected(old(View()), plan.blocks) && plan.Last() == View()
      ensures plan.blocks <= plan.Done()
      ensures m.View() == if plan.batches == [] then old(m.View()) else others(|plan.batches| - 1)
      ensures content == [] ==> plan.batches == [] && unchanged(updated)
    {
      var blocks := SelectBlocks();
      plan := FetchBlocks(m, others, blocks);
    }

    /** Fetch the blocks, if there are any. */
    method FetchBlocks(m: MasterFile, others: nat -> Master, blocks: seq<Interval>) returns (ghost plan: Update)
      requires Valid() && Moving(m.View(), others, |content|)
      requires Proper(blocks) && Cover(blocks) <= Range(0, |content|)
      modifies this, updated, modified, m
      ensures Valid() && |content| == old(|content|)
      ensures plan.Follows(old(View()), others) && plan.blocks == Cover(blocks) && plan.Last() == View()
      ensures plan.blocks <= plan.Done()
      ensures m.View() == if plan.batches == [] then old(m.View()) else others(|plan.batches| - 1)
      ensures blocks == [] ==> plan.batches == [] && unchanged(updated)
    {
      if |blocks| > 0 {
        plan := UpdateBlocks(m, others, blocks);
      } else {
        plan := Update(Cover(blocks), [], [View()]);
      }
    }

    /** The blocks of the whole file to be fetched. */
    method SelectBlocks() returns (blocks: seq<Interval>)
      requires Valid() && (content != [] ==> InFile())
      ensures Proper(blocks) && Selected(View(), Cover(blocks)) && Cover(blocks) <= Range(0, |content|)
      ensures content == [] ==> blocks == []
    {
      blocks := GetBlocksForUpdating(0, |content|);
    }

    /** Mark the file complete if everything is updated. */
    method MarkIfCovered() returns (marked: bool)
      requires Valid()
      modifies this`complete
      ensures Valid() && View() == old(View()).(complete := marked || old(complete))
      ensures marked ==> Range(0, |content|) <= updated.Offsets()
      ensures content != [] ==> (marked <==> Range(0, |content|) <= updated.Offsets())
      ensures updated.nodes == [] ==> !marked
    {
      marked := updated.Covered(0, |content|);
      if marked {
        complete := true;
      }
    }

    /** Plan the chunks for the blocks and go through the batches. */
    method UpdateBlocks(m: MasterFile, others: nat -> Master, blocks: seq<Interval>) returns (ghost plan: Update)
      requires Valid() && Moving(m.View(), others, |content|)
      requires Proper(blocks) && Cover(blocks) <= Range(0, |content|)
      modifies this, updated, modified, m
      ensures Valid() && |content| == old(|content|)
      ensures plan.Follows(old(View()), others) && plan.blocks == Cover(blocks) && plan.Last() == View()
      ensures GoodPlan(blocks, Flat(plan.batches))
      ensures m.View() == if plan.batches == [] then old(m.View()) else others(|plan.batches| - 1)
    {
      var batches := Plan(blocks);
      PlanInBounds(blocks, Flat(batches), |content|);
      plan := FetchBatches(m, others, blocks, batches);
    }

    /** Go through the batches. */
    method FetchBatches(m: MasterFile, others: nat -> Master, blocks: seq<Interval>, batches: seq<seq<Interval>>)
      returns (ghost plan: Update)
      requires Valid() && Moving(m.View(), others, |content|)
      requires InBounds(Flat(batches), |content|) && Proper(Flat(batches))
      modifies this, updated, modified, m
      ensures Valid() && |content| == old(|content|)
      ensures plan.Follows(old(View()), others) && plan.blocks == Cover(blocks) && plan.batches == batches
      ensures plan.Last() == View()
      ensures m.View() == if batches == [] then old(m.View()) else others(|batches| - 1)
    {
      plan := Update(Cover(blocks), [], [View()]);
      for b := 0 to |batches|
        invariant Valid() && |content| == old(|content|)
        invariant plan.blocks == Cover(blocks) && plan.batches == batches[..b]
        invariant plan.Follows(old(View()), others) && plan.Last() == View()
        invariant m.View() == if b == 0 then old(m.View()) else others(b - 1)
      {
        BatchInBounds(batches, b, |content|);
        plan := NextBatch(m, others, b, blocks, batches[b], old(View()), plan);
        assert batches[..b + 1] == batches[..b] + [batches[b]];
      }
      assert batches[..|batches|] == batches;
    }

    /** One more batch. */
    method NextBatch(m: MasterFile, others: nat -> Master, b: nat, blocks: seq<Interval>, chunks: seq<Interval>,
                     ghost c0: Cache, ghost plan0: Update) returns (ghost plan: Update)
      requires Valid() && |others(b).content| == |content| && InBounds(chunks, |content|) && Proper(chunks)
      requires plan0.Follows(c0, others) && |plan0.batches| == b && plan0.blocks == Cover(blocks) && plan0.Last() == View()
      modifies this, updated, modified, m
      ensures Valid() && |content| == old(|content|) && m.View() == others(b)
      ensures plan.Follows(c0, others) && plan.blocks == plan0.blocks && plan.batches == plan0.batches + [chunks]
      ensures plan.Last() == View()
    {
      FetchBatch(m, others(b), blocks, chunks);
      plan := PlanMore(c0, others, plan0, chunks, View());
    }

    /** A batch from a master that other nodes have brought to `now`. */
    method FetchBatch(m: MasterFile, now: Master, blocks: seq<Interval>, chunks: seq<Interval>)
      requires Valid() && |now.content| == |content| && InBounds(chunks, |content|) && Proper(chunks)
      modifies this, updated, modified, m
      ensures Valid() && |content| == old(|content|) && m.View() == now
      ensures Fetched(old(View()), now, Cover(blocks), chunks, View())
    {
      m.content, m.version := now.content, now.version;
      UpdateBatch(m, blocks, chunks);
    }

    /** Fetch the chunks that were not found equal. */
    method CopyDiffering(m: MasterFile, blocks: seq<Interval>, chunks: seq<Interval>, same: seq<bool>)
      requires Valid() && |m.content| == |content|
      requires InBounds(chunks, |content|) && Proper(chunks) && |same| == |chunks|
      requires forall i :: 0 <= i < |chunks| ==> (same[i] <==> SameOn(content, m.content, chunks[i]))
      modifies this`content, updated
      ensures Valid()
      ensures content == Overlay(old(content), m.content, Cover(chunks) * Cover(blocks))
      ensures old(updated.Offsets()) <= updated.Offsets() <= old(updated.Offsets()) + Cover(chunks)
      ensures Cover(chunks) <= updated.Offsets() + EqualBytes(old(content), m.content, chunks)
    {
      ghost var before := content;
      for i := 0 to |chunks|
        invariant Valid() && |content| == |before|
        invariant content == Overlay(before, m.content, Cover(chunks[..i]) * Cover(blocks))
        invariant old(updated.Offsets()) <= updated.Offsets() <= old(updated.Offsets()) + Cover(chunks[..i])
        invariant Cover(chunks[..i]) <= updated.Offsets() + EqualBytes(before, m.content, chunks[..i])
      {
        assert chunks[..i + 1] == chunks[..i] + [chunks[i]] && chunks[..i + 1][..i] == chunks[..i];
        CoverSnoc(chunks[..i], chunks[i]);
        CopyUnless(m, chunks[i], blocks, same[i]);
      }
      assert chunks[..|chunks|] == chunks;
    }

    /** Fetch one chunk unless it was found equal. */
    method CopyUnless(m: MasterFile, chunk: Interval, blocks: seq<Interval>, equal: bool)
      requires Valid() && |m.content| == |content|
      requires chunk.start < chunk.end <= |content|
      requires equal ==> SameOn(content, m.content, chunk)
      modifies this`content, updated
      ensures Valid()
      ensures content == Overlay(old(content), m.content, Range(chunk.start, chunk.end) * Cover(blocks))
      ensures updated.Offsets() == old(updated.Offsets()) + if equal then {} else Range(chunk.start, chunk.end)
    {
      if !equal {
        CopyChunk(m, chunk, blocks);
      }
    }

    // ----- reintegration -----

    /** Reintegrate the file: send the modified bytes, then settle the versions.  The write
        after `budget` packets fails; `delivered` says whether the closing version call
        got through. */
    method Reintegrate(m: MasterFile, budget: nat, delivered: bool, ghost history: map<nat, seq<Byte>>)
      returns (writes: nat)
      requires Valid() && |m.content| == |content|
      requires m.version == masterVersion < localVersion < WORD
      requires masterVersion + PacketsFor(modified.nodes) < WORD
      modifies this, modified, m
      ensures Valid()
      ensures var before := State(old(View()), old(m.View()), history);
              var step := FileSync.Reintegrate(old(modified.Offsets()) - modified.Offsets(), writes, |content|,
                                               modified.nodes == [], delivered);
              && EnabledAt(before, step)
              && State(View(), m.View(), history[m.version := m.content]) == Apply(before, step)
      ensures old(PacketsFor(modified.nodes)) <= budget ==>
                (modified.nodes == [] <==> old(Proper(modified.nodes)))
                && (modified.nodes == [] ==> writes == old(PacketsFor(modified.nodes)))
      ensures modified.nodes == [] && delivered ==> localVersion == masterVersion == m.version == old(localVersion)
    {
      writes := SendModified(m, budget);
      SettleVersions(m, writes, delivered);
      assert Resized(old(m.content), |content|) == old(m.content);
    }

    /** The versions after `writes` packets.  The 64-bit difference wraps when the master's
        counter has overtaken the local version; adding it still lands on the local
        version, so the counter is set back exactly in that case. */
    method SettleVersions(m: MasterFile, writes: nat, delivered: bool)
      requires masterVersion < localVersion < WORD && masterVersion + writes < WORD
      requires m.version == masterVersion + writes
      modifies this`localVersion, this`masterVersion, m`version
      ensures var c, all := old(View()), modified.nodes == [] && delivered;
              && localVersion == ReintegratedLocal(c, writes, all, modified.nodes != [])
              && masterVersion == ReintegratedMaster(c, writes, all)
      ensures m.version == masterVersion
      ensures m.version < old(m.version) <==>
                modified.nodes == [] && delivered && writes > old(localVersion - masterVersion)
    {
      var increase := writes;
      var diff := Sub64(localVersion, masterVersion + increase);
      SetBack(masterVersion, increase, localVersion);
      if diff > 0 && |modified.nodes| == 0 {
        if delivered {
          m.version := Add64(m.version, diff);
          increase := Add64(increase, diff);
        }
      }
      if increase != 0 {
        masterVersion := Add64(masterVersion, increase);
        if |modified.nodes| != 0 {
          if localVersion <= masterVersion {
            localVersion := masterVersion + 1;
          }
        } else {
          if localVersion < masterVersion {
            localVersion := masterVersion;
          }
        }
      }
    }

    /** Resolve a conflict in favour of the master's copy. */
    method DiscardLocal(m: MasterFile, ghost history: map<nat, seq<Byte>>)
      requires Valid() && |m.content| == |content|
      modifies this, updated, modified, m
      ensures Valid()
      ensures State(View(), m.View(), history[m.version := m.content])
           == Apply(State(old(View()), old(m.View()), history), FileSync.DiscardLocal)
    {
      var version := if localVersion > m.version then localVersion + 1 else m.version + 1;
      var increase := version - m.version;
      updated.Empty();
      modified.Empty();
      localVersion, masterVersion, complete := version, version, false;
      m.version := m.version + increase;
    }

    /** Resolve a conflict in favour of the local copy. */
    method DiscardRemote(m: MasterFile, ghost history: map<nat, seq<Byte>>)
      requires Valid() && |m.content| == |content|
      modifies this, updated, modified, m
      ensures Valid()
      ensures State(View(), m.View(), history[m.version := m.content])
           == Apply(State(old(View()), old(m.View()), history), FileSync.DiscardRemote)
    {
      var version := if localVersion > m.version then localVersion else m.version + 1;
      var increase := version - m.version;
      modified.Add(updated);
      updated.Empty();
      localVersion, masterVersion, complete := version + 1, version, false;
      m.version := m.version + increase;
    }

    /** Send the modified bytes to the master, one data packet at a time, until the write
        after `budget` packets fails.  If none fails, nothing is left to send exactly when
        no interval of the tree was empty; a zero-length write leaves an empty one, at
        which the loop gives up. */
    method SendModified(m: MasterFile, budget: nat) returns (writes: nat)
      requires Valid() && |m.content| == |content|
      modifies modified, m
      ensures Valid() && modified.Offsets() <= old(modified.Offsets())
      ensures m.content == Overlay(old(m.content), content, old(modified.Offsets()) - modified.Offsets())
      ensures m.version == old(m.version) + writes
      ensures writes == 0 ==> modified.Offsets() == old(modified.Offsets())
      ensures Proper(modified.nodes) <==> old(Proper(modified.nodes))
      ensures old(PacketsFor(modified.nodes)) <= budget ==>
                (modified.nodes == [] <==> old(Proper(modified.nodes)))
      ensures writes + PacketsFor(modified.nodes) == old(PacketsFor(modified.nodes))
    {
      writes := 0;
      var offset := 0;
      while offset < |content|
        invariant Valid() && |m.content| == |content|
        invariant modified.Offsets() <= old(modified.Offsets())
        invariant modified.nodes != [] ==> offset <= modified.nodes[0].start
        invariant Proper(modified.nodes) <==> old(Proper(modified.nodes))
        invariant writes + PacketsFor(modified.nodes) == old(PacketsFor(modified.nodes))
        invariant m.content == Overlay(old(m.content), content, old(modified.Offsets()) - modified.Offsets())
        invariant m.version == old(m.version) + writes
        invariant writes <= budget
        invariant writes == 0 ==> modified.Offsets() == old(modified.Offsets())
      {
        var i := modified.Lookup(offset);
        if i == |modified.nodes| {
          break;
        }
        assert i == 0;
        var tnode := modified.nodes[i];
        if tnode.start > offset {
          offset := tnode.start;
        }
        var count := Min(tnode.end - tnode.start, ZFS_MAXDATA);
        if count == 0 || writes == budget {
          break;
        }
        NodeInCover(modified.nodes, 0);
        assert tnode.end - 1 in Range(tnode.start, tnode.end);
        SendPacket(m, offset, count);
        writes := writes + 1;
        offset := offset + count;
      }
      if modified.nodes != [] && Proper(modified.nodes) {
        HitCovered(modified.nodes, 0, modified.nodes[0].start);
      }
    }

    /** Write `count` bytes at the front of the first modified interval to the master. */
    method SendPacket(m: MasterFile, offset: nat, count: nat)
      requires Valid() && |m.content| == |content|
      requires modified.nodes != [] && modified.nodes[0].start == offset
      requires 0 < count == Min(modified.nodes[0].end - offset, ZFS_MAXDATA) && offset + count <= |content|
      modifies modified, m
      ensures Valid()
      ensures modified.nodes != [] ==> offset + count <= modified.nodes[0].start
      ensures Proper(modified.nodes) <==> old(Proper(modified.nodes))
      ensures modified.Offsets() == old(modified.Offsets()) - Range(offset, offset + count)
      ensures 1 + PacketsFor(modified.nodes) == old(PacketsFor(modified.nodes))
      ensures m.content == Overlay(old(m.content), content, Range(offset, offset + count))
      ensures m.version == old(m.version) + 1
    {
      BelowIs(modified.nodes, offset, 0);
      PacketSent(modified.nodes, offset + count);
      m.content := Patch(m.content, offset, content[offset..offset + count]);
      m.version := m.version + 1;
      modified.Delete(offset, offset + count);
    }
  }

  /** The marked range cannot be widened: within the blocks of MODIFIED_BLOCK_SIZE bytes that the
      write touches, the bytes next to it are not updated. */
  ghost predicate Widest(updated: set<int>, offset: nat, count: nat, wide: Interval) {
    && (wide.start > 0 && wide.start - 1 in updated ==> wide.start <= offset / MODIFIED_BLOCK_SIZE * MODIFIED_BLOCK_SIZE)
    && (wide.end in updated ==> (offset + count + MODIFIED_BLOCK_SIZE - 1) / MODIFIED_BLOCK_SIZE * MODIFIED_BLOCK_SIZE <= wide.end)
  }

  lemma NothingTouches(blocks: seq<Interval>, w: Interval, i: nat)
    requires Canonical(blocks) && i <= |blocks| && w.start <= w.end
    requires forall k :: 0 <= k < i ==> blocks[k].end < w.start || (w.start <= blocks[k].start && blocks[k].end <= w.end)
    requires i < |blocks| ==> w.end < blocks[i].start
    ensures (w.start > 0 ==> w.start - 1 !in Cover(blocks)) && w.end !in Cover(blocks)
  {
    if w.start > 0 {
      GapNotInCover(blocks, w.start - 1, w.start);
      assert w.start - 1 in Range(w.start - 1, w.start);
    }
    GapNotInCover(blocks, w.end, w.end + 1);
    assert w.end in Range(w.end, w.end + 1);
  }

  // ----- the batches of an update -----

  /** Other nodes write to the master while it is read, without changing its size. */
  ghost predicate Moving(m: Master, others: nat -> Master, n: nat) {
    && |m.content| == n && (forall b :: |others(b).content| == n && Later(m, others(b)))
    && forall a: nat, b: nat :: a <= b ==> Later(others(a), others(b))
  }

  /** The cache holds the master's bytes wherever it is updated and not modified. */
  ghost predicate Matches(s: State) {
    forall o :: o in s.cache.updated - s.cache.modified ==>
      0 <= o < |s.cache.content| && o < |s.master.content| && s.cache.content[o] == s.master.content[o]
  }

  /** The batches of an update and the caches between them. */
  datatype Update = Update(blocks: set<int>, batches: seq<seq<Interval>>, caches: seq<Cache>) {
    ghost predicate Follows(c: Cache, others: nat -> Master) {
      && |caches| == |batches| + 1 && caches[0] == c
      && forall b :: 0 <= b < |batches| ==> Fetched(caches[b], others(b), blocks, batches[b], caches[b + 1])
    }

    ghost function Last(): Cache
      requires |caches| > 0
    {
      caches[|caches| - 1]
    }

    ghost function Done(): set<int> {
      Cover(Flat(batches))
    }

    /** From the first batch on that found the master moved, no chunk leaves the blocks. */
    ghost predicate Safe(others: nat -> Master)
      requires |caches| == |batches| + 1
    {
      forall a, b :: 0 <= a <= b < |batches| && !MayRead(caches[a], others(a)) ==> Cover(batches[b]) <= blocks
    }
  }

  /** With blocks far enough apart no chunk is joined, so the update is safe whatever other
      nodes write. */
  lemma FarApartIsSafe(blocks: seq<Interval>, plan: Update, others: nat -> Master)
    requires |plan.caches| == |plan.batches| + 1 && plan.blocks == Cover(blocks)
    requires FarApart(blocks) && GoodPlan(blocks, Flat(plan.batches))
    ensures plan.Safe(others)
  {
    UnjoinedStaysInBlocks(blocks, Flat(plan.batches));
    forall b | 0 <= b < |plan.batches| ensures Cover(plan.batches[b]) <= plan.blocks {
      BatchDone(plan.batches, b);
    }
  }

  /** Of a locally modified file no batch clears the marks. */
  lemma ModifiedIsSafe(c: Cache, others: nat -> Master, plan: Update)
    requires plan.Follows(c, others) && c.localVersion != c.masterVersion
    ensures plan.Safe(others)
  {
    forall a | 0 <= a < |plan.batches| ensures MayRead(plan.caches[a], others(a)) {
      StaysModified(c, others, plan, a);
    }
  }

  lemma {:induction false} StaysModified(c: Cache, others: nat -> Master, plan: Update, k: nat)
    requires plan.Follows(c, others) && c.localVersion != c.masterVersion && k <= |plan.batches|
    ensures plan.caches[k].localVersion != plan.caches[k].masterVersion
  {
    if k > 0 {
      StaysModified(c, others, plan, k - 1);
      assert Fetched(plan.caches[k - 1], others(k - 1), plan.blocks, plan.batches[k - 1], plan.caches[k]);
    }
  }

  /** What the master is at each batch. */
  ghost function MastersOf(others: nat -> Master, k: nat): (ms: seq<Master>)
    ensures |ms| == k && forall b :: 0 <= b < k ==> ms[b] == others(b)
  {
    seq(k, b requires 0 <= b < k => others(b))
  }

  lemma {:induction false} SizeStays(c: Cache, others: nat -> Master, plan: Update, k: nat)
    requires plan.Follows(c, others) && k <= |plan.batches|
    ensures |plan.caches[k].content| == |c.content|
  {
    if k > 0 {
      SizeStays(c, others, plan, k - 1);
      assert Fetched(plan.caches[k - 1], others(k - 1), plan.blocks, plan.batches[k - 1], plan.caches[k]);
    }
  }

  /** Every chunk of an update lies in the file, which the master is as long as. */
  lemma PlanFits(c: Cache, others: nat -> Master, plan: Update)
    requires plan.Follows(c, others)
    ensures AllInBounds(plan.batches, |c.content|) && forall b :: 0 <= b < |plan.batches| ==> |others(b).content| == |c.content|
  {
    forall b | 0 <= b < |plan.batches| ensures InBounds(plan.batches[b], |c.content|) && |others(b).content| == |c.content| {
      SizeStays(c, others, plan, b);
      assert Fetched(plan.caches[b], others(b), plan.blocks, plan.batches[b], plan.caches[b + 1]);
    }
  }

  /** The caches of an update are what `AfterBatches` tells. */
  lemma {:induction false} PlanIsAfterBatches(c: Cache, others: nat -> Master, plan: Update, k: nat)
    requires plan.Follows(c, others) && k <= |plan.batches|
    requires AllInBounds(plan.batches, |c.content|) && forall b :: 0 <= b < |plan.batches| ==> |others(b).content| == |c.content|
    ensures plan.caches[k] == AfterBatches(c, MastersOf(others, k), plan.blocks, plan.batches[..k])
  {
    if k > 0 {
      PlanIsAfterBatches(c, others, plan, k - 1);
      assert Fetched(plan.caches[k - 1], others(k - 1), plan.blocks, plan.batches[k - 1], plan.caches[k]);
      assert MastersOf(others, k)[..k - 1] == MastersOf(others, k - 1) && plan.batches[..k][..k - 1] == plan.batches[..k - 1];
    }
  }

  ghost predicate Fetched(c: Cache, m: Master, blocks: set<int>, chunks: seq<Interval>, d: Cache) {
    && |c.content| == |m.content| && InBounds(chunks, |c.content|)
    && d == Batched(c, m, blocks, chunks)
  }

  /** Writes of other nodes lead from one state of the master to a later one. */
  lemma {:induction false} WritesLead(s: State, start: State, steps0: seq<Step>, m: Master) returns (steps: seq<Step>, t: State)
    requires Leads(start, steps0, s) && Later(s.master, m)
    requires forall i :: 0 <= i < |steps0| ==> KeepsSize(steps0[i], |m.content|)
    ensures Leads(start, steps, t) && t.cache == s.cache && t.master == m
    ensures forall i :: 0 <= i < |steps| ==> KeepsSize(steps[i], |m.content|)
    decreases m.version - s.master.version
  {
    if s.master.version == m.version {
      steps, t := steps0, s;
    } else {
      var u := Apply(s, MasterWrite(m.content));
      LeadsOn(start, steps0, s, MasterWrite(m.content), u);
      steps, t := WritesLead(u, start, steps0 + [MasterWrite(m.content)], m);
    }
  }

  /** Without clearing, marks only grow together, and `modified` only shrinks. */
  lemma BatchKeepsMarks(c: Cache, m: Master, blocks: set<int>, chunks: seq<Interval>)
    requires |c.content| == |m.content| && InBounds(chunks, |c.content|)
    ensures var d := Batched(c, m, blocks, chunks);
            && d.modified <= c.modified && |d.content| == |c.content|
            && (MayRead(c, m) ==> c.updated + c.modified <= d.updated + d.modified)
  {
    EqualBytesCovered(Ready(c, m).content, m.content, chunks);
  }

  /** Before batch `k`: nothing modified was selected, and what was not selected is marked as long
      as no batch cleared the marks. */
  lemma {:induction false} MarksBefore(c: Cache, others: nat -> Master, plan: Update, k: nat)
    requires plan.Follows(c, others) && Selected(c, plan.blocks) && k <= |plan.batches|
    ensures |plan.caches[k].content| == |c.content| && plan.blocks !! plan.caches[k].modified
    ensures (forall b :: 0 <= b < k ==> MayRead(plan.caches[b], others(b))) ==>
              Range(0, |c.content|) - plan.blocks <= plan.caches[k].updated + plan.caches[k].modified
  {
    if k > 0 {
      MarksBefore(c, others, plan, k - 1);
      assert Fetched(plan.caches[k - 1], others(k - 1), plan.blocks, plan.batches[k - 1], plan.caches[k]);
      BatchKeepsMarks(plan.caches[k - 1], others(k - 1), plan.blocks, plan.batches[k - 1]);
    }
  }

  lemma {:induction false} BatchDone(batches: seq<seq<Interval>>, b: nat)
    requires b < |batches|
    ensures Cover(batches[b]) <= Cover(Flat(batches))
  {
    forall o | o in Cover(batches[b]) ensures o in Cover(Flat(batches)) {
      var i := NodeOf(batches[b], o);
      InFlat(batches, b, batches[b][i]);
      var j :| 0 <= j < |Flat(batches)| && Flat(batches)[j] == batches[b][i];
      HitCovered(Flat(batches), j, o);
    }
  }

  /** The batches, with the writes of other nodes in between, are a run of steps. */
  lemma BatchesLead(s: State, others: nat -> Master, plan: Update) returns (steps: seq<Step>, t: State)
    requires plan.Follows(s.cache, others) && Selected(s.cache, plan.blocks) && plan.Safe(others)
    requires Moving(s.master, others, |s.cache.content|)
    ensures Leads(s, steps, t) && t.cache == plan.Last()
    ensures t.master == if plan.batches == [] then s.master else others(|plan.batches| - 1)
    ensures forall i :: 0 <= i < |steps| ==> KeepsSize(steps[i], |s.cache.content|)
  {
    steps, t := [], s;
    for k := 0 to |plan.batches|
      invariant Leads(s, steps, t) && t.cache == plan.caches[k]
      invariant t.master == if k == 0 then s.master else others(k - 1)
      invariant forall i :: 0 <= i < |steps| ==> KeepsSize(steps[i], |s.cache.content|)
    {
      steps, t := NextBatchLeads(s, others, plan, k, steps, t);
    }
  }

  lemma NextBatchLeads(s: State, others: nat -> Master, plan: Update, k: nat, steps0: seq<Step>, u: State)
    returns (steps: seq<Step>, t: State)
    requires plan.Follows(s.cache, others) && Selected(s.cache, plan.blocks) && plan.Safe(others) && k < |plan.batches|
    requires Moving(s.master, others, |s.cache.content|)
    requires Leads(s, steps0, u) && u.cache == plan.caches[k] && u.master == if k == 0 then s.master else others(k - 1)
    requires forall i :: 0 <= i < |steps0| ==> KeepsSize(steps0[i], |s.cache.content|)
    ensures Leads(s, steps, t) && t.cache == plan.caches[k + 1] && t.master == others(k)
    ensures forall i :: 0 <= i < |steps| ==> KeepsSize(steps[i], |s.cache.content|)
  {
    LaterNext(s.master, others, |s.cache.content|, k);
    var steps1, w := WritesLead(u, s, steps0, others(k));
    MarksBefore(s.cache, others, plan, k);
    BatchSafe(s.cache, others, plan, k);
    assert Fetched(plan.caches[k], others(k), plan.blocks, plan.batches[k], plan.caches[k + 1]);
    steps, t := BatchLeads(w, s, steps1, plan.blocks, plan.batches[k]);
  }

  lemma LaterNext(m: Master, others: nat -> Master, n: nat, k: nat)
    requires Moving(m, others, n)
    ensures Later(if k == 0 then m else others(k - 1), others(k)) && |others(k).content| == n
  {
  }

  lemma PlanMore(c: Cache, others: nat -> Master, plan: Update, chunks: seq<Interval>, d: Cache) returns (more: Update)
    requires plan.Follows(c, others) && Fetched(plan.Last(), others(|plan.batches|), plan.blocks, chunks, d)
    ensures more == Update(plan.blocks, plan.batches + [chunks], plan.caches + [d])
    ensures more.Follows(c, others) && more.Last() == d
  {
    more := Update(plan.blocks, plan.batches + [chunks], plan.caches + [d]);
  }

  /** What an update comes to. */
  lemma UpdateOutcome(s: State, others: nat -> Master, plan: Update) returns (steps: seq<Step>, t: State)
    requires plan.Follows(s.cache, others) && Selected(s.cache, plan.blocks) && plan.blocks <= plan.Done()
    requires Moving(s.master, others, |s.cache.content|)
    requires s.cache.updated <= Range(0, |s.cache.content|) && s.cache.modified <= Range(0, |s.cache.content|)
    ensures plan.Safe(others) ==>
              && Leads(s, steps, t) && t.cache == plan.Last()
              && t.master == (if plan.batches == [] then s.master else others(|plan.batches| - 1))
              && forall i :: 0 <= i < |steps| ==> KeepsSize(steps[i], |s.cache.content|)
    ensures (forall b :: others(b) == s.master) && s.master.version == s.cache.masterVersion && Matches(s) ==>
              Updated(s.cache, plan.Last(), s.master.content)
  {
    steps, t := [], s;
    if plan.Safe(others) {
      steps, t := BatchesLead(s, others, plan);
    }
    if (forall b :: others(b) == s.master) && s.master.version == s.cache.masterVersion && Matches(s) {
      BatchesServe(s.cache, s.master, others, plan, |plan.batches|);
      assert plan.batches[..|plan.batches|] == plan.batches;
      AllServed(s.cache, plan.Last(), s.master.content, plan.blocks, plan.Done());
    }
  }

  /** The same with the flag that is set at the end. */
  lemma MarkedOutcome(s: State, others: nat -> Master, plan: Update, c: Cache) returns (steps: seq<Step>, t: State)
    requires plan.Follows(s.cache, others) && Selected(s.cache, plan.blocks) && plan.blocks <= plan.Done()
    requires Moving(s.master, others, |s.cache.content|)
    requires s.cache.updated <= Range(0, |s.cache.content|) && s.cache.modified <= Range(0, |s.cache.content|)
    requires c == plan.Last().(complete := c.complete) && (c.complete ==> plan.Last().complete || Range(0, |c.content|) <= c.updated)
    requires plan.Last().complete ==> c.complete
    ensures plan.Safe(others) ==>
              && Leads(s, steps, t) && t.cache == c
              && t.master == (if plan.batches == [] then s.master else others(|plan.batches| - 1))
              && forall i :: 0 <= i < |steps| ==> KeepsSize(steps[i], |s.cache.content|)
    ensures (forall b :: others(b) == s.master) && s.master.version == s.cache.masterVersion && Matches(s) ==>
              Updated(s.cache, c, s.master.content)
  {
    steps, t := UpdateOutcome(s, others, plan);
    if plan.Safe(others) && c != t.cache {
      var u := t.(cache := c);
      LeadsOn(s, steps, t, MarkComplete, u);
      steps, t := steps + [MarkComplete], u;
    }
  }

  lemma BatchSafe(c: Cache, others: nat -> Master, plan: Update, k: nat)
    requires plan.Follows(c, others) && Selected(c, plan.blocks) && plan.Safe(others) && k < |plan.batches|
    ensures var d := Ready(plan.caches[k], others(k));
            Cover(plan.batches[k]) - plan.blocks <= d.updated + d.modified
  {
    MarksBefore(c, others, plan, k);
    assert Fetched(plan.caches[k], others(k), plan.blocks, plan.batches[k], plan.caches[k + 1]);
    forall o | o in Cover(plan.batches[k]) ensures o in Range(0, |c.content|) {
      var i := NodeOf(plan.batches[k], o);
    }
  }

  lemma BatchLeads(s: State, start: State, steps0: seq<Step>, blocks: set<int>, chunks: seq<Interval>)
    returns (steps: seq<Step>, t: State)
    requires |s.cache.content| == |s.master.content| && InBounds(chunks, |s.cache.content|)
    requires blocks !! s.cache.modified
    requires var d := Ready(s.cache, s.master); Cover(chunks) - blocks <= d.updated + d.modified
    requires Leads(start, steps0, s) && forall i :: 0 <= i < |steps0| ==> KeepsSize(steps0[i], |s.cache.content|)
    ensures t == s.(cache := Batched(s.cache, s.master, blocks, chunks)) && Leads(start, steps, t)
    ensures forall i :: 0 <= i < |steps| ==> KeepsSize(steps[i], |s.cache.content|)
  {
    t := s.(cache := Batched(s.cache, s.master, blocks, chunks));
    var more := BatchIsRun(s, blocks, chunks);
    steps := steps0 + more;
    LeadsFurther(start, steps0, s, more, t);
  }

  /** With the master where it was, the first `k` batches serve their chunks. */
  lemma {:induction false} BatchesServe(c: Cache, m: Master, others: nat -> Master, plan: Update, k: nat)
    requires plan.Follows(c, others) && k <= |plan.batches| && |c.content| == |m.content|
    requires (forall b :: others(b) == m) && m.version == c.masterVersion
    ensures Served(c, plan.caches[k], m.content, plan.blocks, Cover(Flat(plan.batches[..k])))
  {
    if k == 0 {
      assert plan.batches[..0] == [] && Cover(Flat([])) == {};
      assert Overlay(c.content, m.content, {} * plan.blocks) == c.content;
    } else {
      BatchesServe(c, m, others, plan, k - 1);
      assert Fetched(plan.caches[k - 1], others(k - 1), plan.blocks, plan.batches[k - 1], plan.caches[k]);
      FlatCover(plan.batches, k - 1);
      ServeStep(c, plan.caches[k - 1], m, plan.blocks, Cover(Flat(plan.batches[..k - 1])), plan.batches[k - 1]);
    }
  }

  /** What was not modified locally has become the master's content. */
  ghost predicate Updated(c0: Cache, c: Cache, theirs: seq<Byte>) {
    && |c0.content| == |theirs|
    && c == c0.(content := c.content, complete := c.complete, updated := c.updated, modified := c.modified)
    && c.content == Overlay(theirs, c0.content, c0.modified)
    && c0.updated <= c.updated && Range(0, |theirs|) <= c.updated + c0.modified
    && c.modified <= c0.modified
    && (forall o :: o in c0.modified - c.modified ==> 0 <= o < |c.content| && c.content[o] == theirs[o])
  }

  /** From `c0` to `c` the offsets `done` have been dealt with: those in blocks hold the
      master's byte, all are marked updated, and what left `modified` agrees with the master. */
  ghost predicate Served(c0: Cache, c: Cache, theirs: seq<Byte>, blocks: set<int>, done: set<int>) {
    && |c0.content| == |theirs|
    && c == c0.(content := c.content, updated := c.updated, modified := c.modified)
    && c.content == Overlay(c0.content, theirs, done * blocks)
    && c0.updated + done <= c.updated
    && c.modified <= c0.modified
    && (forall o :: o in c0.modified - c.modified ==> 0 <= o < |c.content| && c.content[o] == theirs[o])
  }

  lemma ServeStep(c0: Cache, c: Cache, m: Master, blocks: set<int>, done: set<int>, chunks: seq<Interval>)
    requires Served(c0, c, m.content, blocks, done) && InBounds(chunks, |m.content|) && MayRead(c, m)
    ensures Served(c0, Batched(c, m, blocks, chunks), m.content, blocks, done + Cover(chunks))
  {
    var theirs := m.content;
    EqualBytesCovered(c.content, theirs, chunks);
    var same := EqualBytes(c.content, theirs, chunks);
    var content := Overlay(c.content, theirs, Cover(chunks) * blocks);
    assert content == Overlay(c0.content, theirs, (done + Cover(chunks)) * blocks);
    forall o | o in c0.modified - (c.modified - same) ensures 0 <= o < |content| && content[o] == theirs[o] {
      assert o in same || o in c0.modified - c.modified;
    }
  }

  /** Once every byte neither updated nor modified is dealt with, only the modified bytes
      can differ from the master. */
  lemma AllServed(c0: Cache, c: Cache, theirs: seq<Byte>, blocks: set<int>, done: set<int>)
    requires Served(c0, c, theirs, blocks, done) && blocks <= done
    requires c0.updated <= Range(0, |theirs|) && c0.modified <= Range(0, |theirs|)
    requires Range(0, |theirs|) - c0.updated - c0.modified <= blocks && blocks !! c0.modified
    requires forall o :: o in c0.updated - c0.modified ==> c0.content[o] == theirs[o]
    ensures Updated(c0, c, theirs)
  {
    forall o | 0 <= o < |theirs| ensures c.content[o] == if o in c0.modified then c0.content[o] else theirs[o] {
      assert o in Range(0, |theirs|);
    }
  }

  lemma SameSlice(a: seq<Byte>, b: seq<Byte>, x: Interval)
    requires |a| == |b| && x.start <= x.end <= |a|
    ensures a[x.start..x.end] == b[x.start..x.end] <==> SameOn(a, b, x)
  {
    if a[x.start..x.end] == b[x.start..x.end] {
      forall o | x.start <= o < x.end ensures a[o] == b[o] {
        assert a[o] == a[x.start..x.end][o - x.start] && b[o] == b[x.start..x.end][o - x.start];
      }
    }
  }

  /** Data packets needed for the intervals: the sum of ceil(length / ZFS_MAXDATA). */
  ghost function PacketsFor(s: seq<Interval>): nat {
    if s == [] then 0
    else (if s[0].end > s[0].start then (s[0].end - s[0].start + ZFS_MAXDATA - 1) / ZFS_MAXDATA else 0) + PacketsFor(s[1..])
  }

  /** Adding a wrapped difference lands on the number it was taken from. */
  lemma SetBack(base: nat, increase: nat, target: nat)
    requires base <= target < WORD && base + increase < WORD
    ensures var diff := Sub64(target, base + increase);
            && Add64(base + increase, diff) == target
            && Add64(base, Add64(increase, diff)) == target
            && (diff == 0 <==> target == base + increase)
            && (diff > 0 ==> Add64(increase, diff) == target - base)
  {
  }

  lemma PacketSent(s: seq<Interval>, end: nat)
    requires s != [] && s[0].start < end <= s[0].end
    requires end == Min(s[0].end, s[0].start + ZFS_MAXDATA)
    ensures 1 + PacketsFor(WithoutFront(s, 0, end)) == PacketsFor(s)
    ensures Proper(WithoutFront(s, 0, end)) <==> Proper(s)
  {
    var t := WithoutFront(s, 0, end);
    if end < s[0].end {
      assert t[1..] == s[1..];
      assert forall i :: 0 < i < |s| ==> s[i] == t[i];
    } else {
      assert t == s[1..];
      assert forall i :: 0 < i < |s| ==> s[i] == t[i - 1];
    }
  }

  lemma NoOverrun(s: seq<Interval>, start: nat, end: nat)
    requires Canonical(s) && Within(s, end)
    ensures Overrun(s, start, end) == {}
  {
  }

  lemma {:induction false} OverrunAllWithin(s: seq<Interval>, src: seq<Interval>, n: nat)
    requires Canonical(s) && Within(s, n)
    ensures OverrunAll(s, src) <= Range(0, n)
    decreases |src|
  {
    if src != [] {
      OverrunAllWithin(s, src[..|src| - 1], n);
    }
  }

  lemma PlanInBounds(blocks: seq<Interval>, chunks: seq<Interval>, n: nat)
    requires Proper(blocks) && Cover(blocks) <= Range(0, n)
    requires ChunkSized(chunks) && LittleExtra(blocks, chunks)
    ensures InBounds(chunks, n) && Proper(chunks)
  {
    forall i | 0 <= i < |chunks| ensures chunks[i].end <= n {
      var x := chunks[i].end - 1;
      HitCovered(chunks, i, x);
      if x !in Cover(blocks) {
        ShortGapWithin(blocks, x, n);
      }
    }
  }

  lemma ShortGapWithin(blocks: seq<Interval>, x: int, n: nat)
    requires Proper(blocks) && Cover(blocks) <= Range(0, n) && InShortGap(blocks, x)
    ensures x < n
  {
    var k :| 0 < k < |blocks| && blocks[k - 1].end <= x < blocks[k].start;
    HitCovered(blocks, k, blocks[k].start);
  }

  lemma {:induction false} InFlat(batches: seq<seq<Interval>>, b: nat, x: Interval)
    requires b < |batches| && x in batches[b]
    ensures x in Flat(batches)
  {
    if b < |batches| - 1 {
      InFlat(batches[..|batches| - 1], b, x);
    }
  }

  lemma BatchInBounds(batches: seq<seq<Interval>>, b: nat, n: nat)
    requires b < |batches| && InBounds(Flat(batches), n) && Proper(Flat(batches))
    ensures InBounds(batches[b], n) && Proper(batches[b])
  {
    forall i | 0 <= i < |batches[b]| ensures batches[b][i].start < batches[b][i].end <= n {
      InFlat(batches, b, batches[b][i]);
    }
  }

  lemma FlatCover(batches: seq<seq<Interval>>, b: nat)
    requires b < |batches|
    ensures Cover(Flat(batches[..b + 1])) == Cover(Flat(batches[..b])) + Cover(batches[b])
  {
    assert batches[..b + 1] == batches[..b] + [batches[b]];
    FlatSnoc(batches[..b], batches[b]);
    CoverConcat(Flat(batches[..b]), batches[b]);
  }

  lemma KeepsLast(c: Cache, nodes: seq<Interval>, size: nat)
    requires Canonical(nodes) && Proper(nodes) && c.modified == Cover(nodes)
    ensures MayTruncate(c, size, Max(size, LastEnd(nodes)))
  {
    WithinLast(nodes, Max(size, LastEnd(nodes)));
    if nodes != [] {
      HitCovered(nodes, |nodes| - 1, LastEnd(nodes) - 1);
    }
  }

  lemma CutOff(s: set<int>, n: nat, kept: nat)
    requires s <= Range(0, n) && n < WORD - 1
    ensures s - Range(kept, WORD - 1) == s * Range(0, kept)
    ensures s <= Range(0, kept) ==> s - Range(kept, WORD - 1) == s
  {
  }

  function LastEnd(s: seq<Interval>): nat {
    if s == [] then 0 else s[|s| - 1].end
  }

  lemma WithinLast(s: seq<Interval>, n: nat)
    requires Canonical(s) && LastEnd(s) <= n
    ensures Cover(s) <= Range(0, n)
  {
    forall x | x in Cover(s) ensures x in Range(0, n) {
      var i := NodeOf(s, x);
    }
  }

  lemma {:induction false} NoOverrunAll(src: seq<Interval>)
    ensures OverrunAll([], src) == {}
    decreases |src|
  {
    if src != [] {
      NoOverrunAll(src[..|src| - 1]);
    }
  }
}
