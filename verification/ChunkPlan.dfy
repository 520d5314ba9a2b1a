/** Planning of the chunks that an update compares with the master and fetches.

    The blocks to be updated are cut into chunks of at most ZFS_MAXDATA bytes; a block
    that starts shortly after the last chunk is joined to it; chunks are sent in batches
    of at most ZFS_MAX_MD5_CHUNKS.  Blocks may overlap: that is how they come out of
    `GetBlocksForUpdating` when something is modified locally. */
module ChunkPlan {
  import opened Contents
  import opened Intervals

  const MODIFIED_BLOCK_SIZE: nat := 1024
  const MAX_MD5_CHUNKS: nat := 256

  /** The chunks of all batches in the order they are sent. */
  function Flat(batches: seq<seq<Interval>>): seq<Interval> {
    if batches == [] then [] else Flat(batches[..|batches| - 1]) + batches[|batches| - 1]
  }

  lemma FlatSnoc(batches: seq<seq<Interval>>, batch: seq<Interval>)
    ensures Flat(batches + [batch]) == Flat(batches) + batch
  {
    assert (batches + [batch])[..|batches|] == batches;
  }

  ghost predicate ChunkSized(s: seq<Interval>) {
    forall i :: 0 <= i < |s| ==> s[i].start < s[i].end <= s[i].start + ZFS_MAXDATA
  }

  ghost predicate BatchSized(batches: seq<seq<Interval>>) {
    forall i :: 0 <= i < |batches| ==> 0 < |batches[i]| <= MAX_MD5_CHUNKS
  }

  /** In ascending order and disjoint. */
  ghost predicate Ascending(s: seq<Interval>) {
    forall i, j :: 0 <= i < j < |s| ==> s[i].end <= s[j].start
  }

  /** The same of neighbours only, counted from the end. */
  ghost predicate Linked(s: seq<Interval>) {
    |s| <= 1 || (s[|s| - 2].end <= s[|s| - 1].start && Linked(s[..|s| - 1]))
  }

  lemma LinkedSnoc(s: seq<Interval>, x: Interval)
    ensures Linked(s + [x]) <==> Linked(s) && (s == [] || s[|s| - 1].end <= x.start)
  {
    assert (s + [x])[..|s|] == s;
  }

  lemma LinkedWider(s: seq<Interval>, x: Interval)
    requires s != [] && x.start == s[|s| - 1].start
    ensures Linked(s[|s| - 1 := x]) <==> Linked(s)
  {
    var n := |s| - 1;
    assert s[n := x][..n] == s[..n];
  }

  lemma {:induction false} LinkedIsAscending(s: seq<Interval>)
    requires Proper(s)
    ensures Linked(s) <==> Ascending(s)
  {
    if |s| > 1 {
      var n := |s| - 1;
      LinkedIsAscending(s[..n]);
      if Linked(s) {
        forall i, j | 0 <= i < j < |s| ensures s[i].end <= s[j].start {
          assert s[..n][i] == s[i] && s[..n][n - 1] == s[n - 1];
          if j < n {
            assert s[..n][j] == s[j];
          } else if i < n - 1 {
            assert s[..n][i].end <= s[..n][n - 1].start;
          }
        }
      }
    }
  }

  /** Offset `x` lies between two consecutive blocks less than a modified-block apart. */
  ghost predicate InShortGap(blocks: seq<Interval>, x: int) {
    exists k :: 0 < k < |blocks| && blocks[k - 1].end <= x < blocks[k].start
             && blocks[k].start - blocks[k - 1].end < MODIFIED_BLOCK_SIZE
  }

  ghost predicate StartInBlocks(blocks: seq<Interval>, chunks: seq<Interval>) {
    forall i :: 0 <= i < |chunks| ==> chunks[i].start as int in Cover(blocks)
  }

  /** Besides block bytes the chunks hold only bytes of short gaps. */
  ghost predicate LittleExtra(blocks: seq<Interval>, chunks: seq<Interval>) {
    forall x :: x in Cover(chunks) - Cover(blocks) ==> InShortGap(blocks, x)
  }

  /** What a plan promises about the blocks it was made for. */
  ghost predicate GoodPlan(blocks: seq<Interval>, chunks: seq<Interval>) {
    && ChunkSized(chunks) && StartInBlocks(blocks, chunks)
    && Cover(blocks) <= Cover(chunks)
    && LittleExtra(blocks, chunks)
    && (Ascending(chunks) <==> Ascending(blocks))
  }

  function PieceEnd(start: nat, end: nat): nat {
    Min(end, start + ZFS_MAXDATA)
  }

  // ----- nothing is sent in more pieces than needed -----

  /** A block that goes on at `pos` can be joined to the chunk. */
  predicate Joinable(chunk: Interval, pos: nat) {
    chunk.end <= pos && pos - chunk.start < ZFS_MAXDATA && pos - chunk.end < MODIFIED_BLOCK_SIZE
  }

  /** No chunk could have been joined to the one before it. */
  ghost predicate Unjoinable(chunks: seq<Interval>) {
    forall k :: 0 < k < |chunks| ==> !Joinable(chunks[k - 1], chunks[k].start)
  }

  /** A chunk is as long as a packet allows, or ends with a block. */
  ghost predicate CutWell(blocks: seq<Interval>, chunk: Interval) {
    chunk.end == chunk.start + ZFS_MAXDATA || exists k :: 0 <= k < |blocks| && blocks[k].end == chunk.end
  }

  ghost predicate Packed(blocks: seq<Interval>, chunks: seq<Interval>) {
    Unjoinable(chunks) && forall k :: 0 <= k < |chunks| ==> CutWell(blocks, chunks[k])
  }

  /** The sent batches are full and packed, and so is the one being filled as far as it goes. */
  ghost predicate AllPacked(blocks: seq<Interval>, batches: seq<seq<Interval>>, args: seq<Interval>) {
    && (forall b :: 0 <= b < |batches| ==> |batches[b]| == MAX_MD5_CHUNKS && Packed(blocks, batches[b]))
    && Packed(blocks, args)
  }

  lemma JoinPacked(blocks: seq<Interval>, args: seq<Interval>, i: nat)
    requires Packed(blocks, args) && args != [] && i < |blocks|
    ensures var last := args[|args| - 1];
            Packed(blocks, args[|args| - 1 := Interval(last.start, PieceEnd(last.start, blocks[i].end))])
  {
  }

  lemma StartPacked(blocks: seq<Interval>, args: seq<Interval>, i: nat, pos: nat)
    requires Packed(blocks, args) && i < |blocks| && (args == [] || !Joinable(args[|args| - 1], pos))
    ensures Packed(blocks, args + [Interval(pos, PieceEnd(pos, blocks[i].end))])
  {
  }

  lemma FullPacked(blocks: seq<Interval>, batches: seq<seq<Interval>>, args: seq<Interval>)
    requires AllPacked(blocks, batches, args) && |args| == MAX_MD5_CHUNKS
    ensures AllPacked(blocks, batches + [args], [])
  {
  }

  lemma LastPacked(blocks: seq<Interval>, batches: seq<seq<Interval>>, args: seq<Interval>)
    requires AllPacked(blocks, batches, args)
    ensures forall b :: 0 <= b < |batches| ==> |(batches + [args])[b]| == MAX_MD5_CHUNKS
    ensures forall b :: 0 <= b <= |batches| ==> Packed(blocks, (batches + [args])[b])
  {
  }

  /** The bytes of the blocks before `i`, and of block `i` up to `pos`, are in chunks. */
  ghost predicate BytesPlanned(blocks: seq<Interval>, chunks: seq<Interval>, i: nat, pos: nat)
    requires i < |blocks|
  {
    && Cover(blocks[..i]) + Range(blocks[i].start, pos) <= Cover(chunks)
    && LittleExtra(blocks, chunks)
  }

  /** Where the last chunk ends. */
  ghost predicate EndsAt(blocks: seq<Interval>, chunks: seq<Interval>, i: nat, pos: nat)
    requires i < |blocks|
  {
    if pos == blocks[i].start then
      if chunks == [] then i == 0 else i > 0 && chunks[|chunks| - 1].end == blocks[i - 1].end
    else
      && chunks != [] && chunks[|chunks| - 1].end == pos
      && (pos < blocks[i].end ==> pos == chunks[|chunks| - 1].start + ZFS_MAXDATA)
  }

  ghost predicate OrderKept(blocks: seq<Interval>, chunks: seq<Interval>, i: nat, pos: nat)
    requires i < |blocks|
  {
    Linked(chunks) <==> Linked(if pos == blocks[i].start then blocks[..i] else blocks[..i + 1])
  }

  ghost predicate Planned(blocks: seq<Interval>, chunks: seq<Interval>, i: nat, pos: nat)
    requires i < |blocks|
  {
    && ChunkSized(chunks) && StartInBlocks(blocks, chunks)
    && BytesPlanned(blocks, chunks, i, pos)
    && EndsAt(blocks, chunks, i, pos)
    && OrderKept(blocks, chunks, i, pos)
  }

  /** Adding bytes from `pos` of block `i` on, and perhaps the short gap before it. */
  lemma ServesMore(blocks: seq<Interval>, chunks: seq<Interval>, more: seq<Interval>, i: nat, from: nat, pos: nat, end: nat)
    requires i < |blocks| && blocks[i].start <= pos < end <= blocks[i].end
    requires BytesPlanned(blocks, chunks, i, pos)
    requires from == pos
      || (i > 0 && pos == blocks[i].start && blocks[i - 1].end == from < pos < from + MODIFIED_BLOCK_SIZE)
    requires Cover(more) == Cover(chunks) + Range(from, end)
    ensures BytesPlanned(blocks, more, i, end)
  {
    forall x | x in Range(from, end) - Cover(blocks) ensures InShortGap(blocks, x) {
      if x >= pos {
        HitCovered(blocks, i, x);
      }
    }
    assert Range(blocks[i].start, end) <= Range(blocks[i].start, pos) + Range(from, end);
  }

  lemma JoinKeepsOrder(blocks: seq<Interval>, chunks: seq<Interval>, i: nat, wider: Interval)
    requires Proper(blocks) && Proper(chunks) && 0 < i < |blocks| && chunks != []
    requires chunks[|chunks| - 1].end == blocks[i - 1].end <= blocks[i].start < wider.end
    requires chunks[|chunks| - 1].start == wider.start
    requires OrderKept(blocks, chunks, i, blocks[i].start)
    ensures OrderKept(blocks, chunks[|chunks| - 1 := wider], i, wider.end)
  {
    LinkedWider(chunks, wider);
    LinkedSnoc(blocks[..i], blocks[i]);
    assert blocks[..i + 1] == blocks[..i] + [blocks[i]];
  }

  lemma StartKeepsOrder(blocks: seq<Interval>, chunks: seq<Interval>, i: nat, pos: nat, piece: Interval)
    requires Proper(blocks) && Proper(chunks) && i < |blocks|
    requires blocks[i].start <= pos == piece.start < piece.end
    requires EndsAt(blocks, chunks, i, pos) && OrderKept(blocks, chunks, i, pos)
    ensures OrderKept(blocks, chunks + [piece], i, piece.end)
  {
    LinkedSnoc(chunks, piece);
    LinkedSnoc(blocks[..i], blocks[i]);
    assert blocks[..i + 1] == blocks[..i] + [blocks[i]];
  }

  /** The last chunk is extended into block `i`, over a short gap or none. */
  lemma JoinStep(blocks: seq<Interval>, chunks: seq<Interval>, i: nat, pos: nat)
    requires Proper(blocks) && i < |blocks| && chunks != []
    requires blocks[i].start <= pos < blocks[i].end && Planned(blocks, chunks, i, pos)
    requires chunks[|chunks| - 1].end <= pos < chunks[|chunks| - 1].start + ZFS_MAXDATA
    requires pos - chunks[|chunks| - 1].end < MODIFIED_BLOCK_SIZE
    ensures var last := chunks[|chunks| - 1];
            var wider := Interval(last.start, PieceEnd(last.start, blocks[i].end));
            && pos < wider.end
            && Planned(blocks, chunks[|chunks| - 1 := wider], i, wider.end)
  {
    var n := |chunks| - 1;
    var last := chunks[n];
    var wider := Interval(last.start, PieceEnd(last.start, blocks[i].end));
    assert pos == blocks[i].start;
    ExtendCover(chunks, n, wider, last.end, wider.end);
    ServesMore(blocks, chunks, chunks[n := wider], i, last.end, pos, wider.end);
    JoinKeepsOrder(blocks, chunks, i, wider);
  }

  /** A new chunk is started at `pos` in block `i`. */
  lemma StartStep(blocks: seq<Interval>, chunks: seq<Interval>, i: nat, pos: nat)
    requires Proper(blocks) && i < |blocks|
    requires blocks[i].start <= pos < blocks[i].end && Planned(blocks, chunks, i, pos)
    ensures var piece := Interval(pos, PieceEnd(pos, blocks[i].end));
            pos < piece.end && Planned(blocks, chunks + [piece], i, piece.end)
  {
    var piece := Interval(pos, PieceEnd(pos, blocks[i].end));
    CoverSnoc(chunks, piece);
    ServesMore(blocks, chunks, chunks + [piece], i, pos, pos, piece.end);
    HitCovered(blocks, i, pos);
    StartKeepsOrder(blocks, chunks, i, pos, piece);
  }

  /** The sent batches and the batch being filled, as the plan they make up. */
  ghost predicate Filling(blocks: seq<Interval>, batches: seq<seq<Interval>>, args: seq<Interval>, i: nat, pos: nat)
    requires i < |blocks|
  {
    && BatchSized(batches) && |args| <= MAX_MD5_CHUNKS
    && Planned(blocks, Flat(batches) + args, i, pos)
  }

  /** Once block `i` is served to its end, the next block is served up to its start. */
  lemma NextBlock(blocks: seq<Interval>, batches: seq<seq<Interval>>, args: seq<Interval>, i: nat)
    requires Proper(blocks) && i + 1 < |blocks|
    requires Filling(blocks, batches, args, i, blocks[i].end)
    ensures Filling(blocks, batches, args, i + 1, blocks[i + 1].start)
  {
    assert blocks[..i + 1] == blocks[..i] + [blocks[i]];
    CoverSnoc(blocks[..i], blocks[i]);
  }

  /** The first `i` blocks are served. */
  ghost predicate UpTo(blocks: seq<Interval>, batches: seq<seq<Interval>>, args: seq<Interval>, i: nat)
    requires i <= |blocks|
  {
    if i < |blocks| then Filling(blocks, batches, args, i, blocks[i].start)
    else if i > 0 then args != [] && Filling(blocks, batches, args, i - 1, blocks[i - 1].end)
    else args == [] && batches == []
  }

  lemma NextUp(blocks: seq<Interval>, batches: seq<seq<Interval>>, args: seq<Interval>, i: nat)
    requires Proper(blocks) && i < |blocks| && args != [] && Filling(blocks, batches, args, i, blocks[i].end)
    ensures UpTo(blocks, batches, args, i + 1)
  {
    if i + 1 < |blocks| {
      NextBlock(blocks, batches, args, i);
    }
  }

  lemma Join(blocks: seq<Interval>, batches: seq<seq<Interval>>, args: seq<Interval>, i: nat, pos: nat)
    requires Proper(blocks) && i < |blocks| && args != []
    requires blocks[i].start <= pos < blocks[i].end && Filling(blocks, batches, args, i, pos)
    requires args[|args| - 1].end <= pos < args[|args| - 1].start + ZFS_MAXDATA
    requires pos - args[|args| - 1].end < MODIFIED_BLOCK_SIZE
    ensures var last := args[|args| - 1];
            var wider := Interval(last.start, PieceEnd(last.start, blocks[i].end));
            && pos < wider.end
            && Filling(blocks, batches, args[|args| - 1 := wider], i, wider.end)
  {
    var all := Flat(batches) + args;
    var wider := Interval(args[|args| - 1].start, PieceEnd(args[|args| - 1].start, blocks[i].end));
    JoinStep(blocks, all, i, pos);
    assert Flat(batches) + args[|args| - 1 := wider] == all[|all| - 1 := wider];
  }

  lemma Flush(blocks: seq<Interval>, batches: seq<seq<Interval>>, args: seq<Interval>, i: nat, pos: nat)
    requires i < |blocks| && Filling(blocks, batches, args, i, pos) && args != []
    ensures Filling(blocks, batches + [args], [], i, pos)
  {
    FlatSnoc(batches, args);
    assert Flat(batches + [args]) + [] == Flat(batches) + args;
  }

  lemma Start(blocks: seq<Interval>, batches: seq<seq<Interval>>, args: seq<Interval>, i: nat, pos: nat)
    requires Proper(blocks) && i < |blocks| && |args| < MAX_MD5_CHUNKS
    requires blocks[i].start <= pos < blocks[i].end && Filling(blocks, batches, args, i, pos)
    ensures var piece := Interval(pos, PieceEnd(pos, blocks[i].end));
            pos < piece.end && Filling(blocks, batches, args + [piece], i, piece.end)
  {
    var piece := Interval(pos, PieceEnd(pos, blocks[i].end));
    StartStep(blocks, Flat(batches) + args, i, pos);
    assert Flat(batches) + (args + [piece]) == Flat(batches) + args + [piece];
  }

  /** All blocks are served. */
  lemma Finished(blocks: seq<Interval>, batches: seq<seq<Interval>>)
    requires Proper(blocks) && blocks != []
    requires Filling(blocks, batches, [], |blocks| - 1, blocks[|blocks| - 1].end)
    ensures BatchSized(batches) && GoodPlan(blocks, Flat(batches))
  {
    var n := |blocks| - 1;
    assert Flat(batches) + [] == Flat(batches);
    assert blocks[..n + 1] == blocks == blocks[..n] + [blocks[n]];
    CoverSnoc(blocks[..n], blocks[n]);
    assert Ascending(Flat(batches)) <==> Ascending(blocks) by {
      LinkedIsAscending(blocks);
      LinkedIsAscending(Flat(batches));
    }
  }

  lemma LastBatch(blocks: seq<Interval>, batches: seq<seq<Interval>>, args: seq<Interval>)
    requires Proper(blocks) && blocks != [] && args != []
    requires Filling(blocks, batches, args, |blocks| - 1, blocks[|blocks| - 1].end)
    ensures BatchSized(batches + [args]) && GoodPlan(blocks, Flat(batches + [args]))
  {
    Flush(blocks, batches, args, |blocks| - 1, blocks[|blocks| - 1].end);
    Finished(blocks, batches + [args]);
  }

  /** Cut the blocks into batches of chunks.  The chunks of all batches cover every block,
      stray from the blocks only into short gaps, and are ascending and disjoint exactly
      when the blocks are.  No chunk is shorter than it has to be, none could be joined to the
      one before it, and every batch but the last is full. */
  method Plan(blocks: seq<Interval>) returns (batches: seq<seq<Interval>>)
    requires Proper(blocks)
    ensures BatchSized(batches)
    ensures GoodPlan(blocks, Flat(batches))
    ensures forall b :: 0 <= b < |batches| - 1 ==> |batches[b]| == MAX_MD5_CHUNKS
    ensures forall b :: 0 <= b < |batches| ==> Packed(blocks, batches[b])
  {
    batches := [];
    var args: seq<Interval> := [];
    var i := 0;
    while i < |blocks|
      invariant i <= |blocks| && UpTo(blocks, batches, args, i) && AllPacked(blocks, batches, args)
    {
      batches, args := PlanBlock(blocks, i, batches, args);
      NextUp(blocks, batches, args, i);
      i := i + 1;
    }
    if |args| > 0 {
      LastBatch(blocks, batches, args);
      LastPacked(blocks, batches, args);
      batches := batches + [args];
    }
  }

  /** The inner loop: serve block `i` to its end.  The cell of `args.length` read back
      after joining is the one just written; see `JoinReadsTheNextCell`. */
  method PlanBlock(blocks: seq<Interval>, i: nat, batches0: seq<seq<Interval>>, args0: seq<Interval>)
    returns (batches: seq<seq<Interval>>, args: seq<Interval>)
    requires Proper(blocks) && i < |blocks|
    requires Filling(blocks, batches0, args0, i, blocks[i].start) && AllPacked(blocks, batches0, args0)
    ensures Filling(blocks, batches, args, i, blocks[i].end) && AllPacked(blocks, batches, args)
    ensures args != []
  {
    batches, args := batches0, args0;
    var x := blocks[i];
    while x.start < x.end
      invariant blocks[i].start <= x.start <= x.end == blocks[i].end
      invariant Filling(blocks, batches, args, i, x.start) && AllPacked(blocks, batches, args)
      invariant x.start > blocks[i].start ==> args != []
    {
      // The two unsigned differences of the source wrap, and so fail the tests, when
      // the block starts before the chunk or inside it.
      if |args| > 0 && Joinable(args[|args| - 1], x.start) {
        args := JoinChunk(blocks, i, x.start, batches, args);
      } else {
        batches, args := StartChunk(blocks, i, x.start, batches, args);
      }
      x := x.(start := args[|args| - 1].end);
    }
  }

  /** Join the block, from `pos` on, to the last chunk. */
  method JoinChunk(blocks: seq<Interval>, i: nat, pos: nat, ghost batches: seq<seq<Interval>>, args0: seq<Interval>)
    returns (args: seq<Interval>)
    requires Proper(blocks) && i < |blocks| && blocks[i].start <= pos < blocks[i].end
    requires Filling(blocks, batches, args0, i, pos) && AllPacked(blocks, batches, args0)
    requires args0 != [] && Joinable(args0[|args0| - 1], pos)
    ensures args != [] && pos < args[|args| - 1].end <= blocks[i].end
    ensures Filling(blocks, batches, args, i, args[|args| - 1].end) && AllPacked(blocks, batches, args)
  {
    var last := args0[|args0| - 1];
    Join(blocks, batches, args0, i, pos);
    JoinPacked(blocks, args0, i);
    args := args0[|args0| - 1 := Interval(last.start, PieceEnd(last.start, blocks[i].end))];
  }

  /** Start a chunk at `pos`, in a new batch if this one is full. */
  method StartChunk(blocks: seq<Interval>, i: nat, pos: nat, batches0: seq<seq<Interval>>, args0: seq<Interval>)
    returns (batches: seq<seq<Interval>>, args: seq<Interval>)
    requires Proper(blocks) && i < |blocks| && blocks[i].start <= pos < blocks[i].end
    requires Filling(blocks, batches0, args0, i, pos) && AllPacked(blocks, batches0, args0)
    requires args0 == [] || !Joinable(args0[|args0| - 1], pos)
    ensures args != [] && pos < args[|args| - 1].end <= blocks[i].end
    ensures Filling(blocks, batches, args, i, args[|args| - 1].end) && AllPacked(blocks, batches, args)
  {
    batches, args := batches0, args0;
    if |args| == MAX_MD5_CHUNKS {
      Flush(blocks, batches, args, i, pos);
      FullPacked(blocks, batches, args);
      batches, args := batches + [args], [];
    }
    Start(blocks, batches, args, i, pos);
    StartPacked(blocks, args, i, pos);
    args := args + [Interval(pos, PieceEnd(pos, blocks[i].end))];
  }

  /** As written, the joining branch resumes at `offset + cell`, where `cell` is the
      length cell after the one it has just filled.  The rest of the block is lost exactly
      when the joined chunk was cut short and the cell holds more than ZFS_MAXDATA, and
      bytes are planned twice exactly when the cell holds less than the joined length. */
  lemma JoinReadsTheNextCell(offset: nat, pos: nat, end: nat, cell: nat)
    requires offset <= pos < end && pos - offset < ZFS_MAXDATA
    ensures var joined, rest := Range(offset, PieceEnd(offset, end)), Range(offset + cell, end);
            && (Range(pos, end) <= joined + rest <==> !(end - offset > ZFS_MAXDATA && cell > ZFS_MAXDATA))
            && (joined !! rest <==> cell >= PieceEnd(offset, end) - offset)
  {
    var cut := PieceEnd(offset, end);
    var joined, rest := Range(offset, cut), Range(offset + cell, end);
    if end - offset > ZFS_MAXDATA && cell > ZFS_MAXDATA {
      assert cut in Range(pos, end) && cut !in joined && cut !in rest;
    }
    if cell < cut - offset {
      assert offset + cell in joined && offset + cell in rest;
    }
  }

  /** No two consecutive blocks are a short gap apart. */
  ghost predicate FarApart(blocks: seq<Interval>) {
    && Canonical(blocks)
    && forall k :: 0 < k < |blocks| ==> blocks[k].start - blocks[k - 1].end >= MODIFIED_BLOCK_SIZE
  }

  /** Then every chunk lies in one block. */
  lemma ChunkInOneBlock(blocks: seq<Interval>, chunks: seq<Interval>, c: nat) returns (b: nat)
    requires FarApart(blocks) && c < |chunks|
    requires StartInBlocks(blocks, chunks) && LittleExtra(blocks, chunks)
    ensures b < |blocks| && blocks[b].start <= chunks[c].start && chunks[c].end <= blocks[b].end
  {
    b := NodeOf(blocks, chunks[c].start);
    var x := blocks[b].end;
    if x < chunks[c].end {
      HitCovered(chunks, c, x);
      GapNotInCover(blocks, x, x + 1);
      assert x in Range(x, x + 1);
      NoShortGap(blocks, x);
    }
  }

  /** So nothing outside the blocks is planned. */
  lemma UnjoinedStaysInBlocks(blocks: seq<Interval>, chunks: seq<Interval>)
    requires FarApart(blocks) && GoodPlan(blocks, chunks)
    ensures Cover(chunks) == Cover(blocks)
  {
    forall x | x in Cover(chunks) ensures x in Cover(blocks) {
      var c := NodeOf(chunks, x);
      var b := ChunkInOneBlock(blocks, chunks, c);
      HitCovered(blocks, b, x);
    }
  }

  lemma NoShortGap(blocks: seq<Interval>, x: int)
    requires FarApart(blocks)
    ensures !InShortGap(blocks, x)
  {
  }
}
