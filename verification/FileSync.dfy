/** Content of a single file, and the ways contents are combined. */
module Contents {
  newtype Byte = x: int | 0 <= x < 256

  /** The most data that a packet carries. */
  const ZFS_MAXDATA: nat := 8192

  /** `base` with the bytes that `src` has at the given offsets. */
  function Overlay(base: seq<Byte>, src: seq<Byte>, at: set<int>): (r: seq<Byte>)
    ensures |r| == |base|
    ensures forall i {:trigger r[i]} :: 0 <= i < |r| ==> r[i] == if i in at && i < |src| then src[i] else base[i]
  {
    seq(|base|, i requires 0 <= i < |base| => if i in at && i < |src| then src[i] else base[i])
  }

  /** `base` with `data` in place of as many bytes at `offset`. */
  function Patch(base: seq<Byte>, offset: nat, data: seq<Byte>): (r: seq<Byte>)
    requires offset + |data| <= |base|
    ensures |r| == |base|
    ensures forall i {:trigger r[i]} :: 0 <= i < |r| ==>
      r[i] == if offset <= i < offset + |data| then data[i - offset] else base[i]
    ensures r[..offset] == base[..offset] && r[..offset + |data|] == base[..offset] + data
    ensures r[offset + |data|..] == base[offset + |data|..]
  {
    base[..offset] + data + base[offset + |data|..]
  }

  /** Cut, or filled up with zeroes. */
  function Resized(s: seq<Byte>, n: nat): (r: seq<Byte>)
    ensures |r| == n
    ensures forall o {:trigger r[o]} :: 0 <= o < n ==> r[o] == if o < |s| then s[o] else 0
  {
    if n < |s| then s[..n] else s + seq(n - |s|, _ => 0)
  }

  /** `base` with `data` written at `offset`, grown where it has to be. */
  function WriteAt(base: seq<Byte>, offset: nat, data: seq<Byte>): (r: seq<Byte>)
    ensures |r| == if |base| < offset + |data| then offset + |data| else |base|
    ensures forall i {:trigger r[i]} :: 0 <= i < |r| ==>
      r[i] == if offset <= i < offset + |data| then data[i - offset] else if i < |base| then base[i] else 0
  {
    Patch(Resized(base, if |base| < offset + |data| then offset + |data| else |base|), offset, data)
  }

  lemma StoredAt(base: seq<Byte>, offset: nat, data: seq<Byte>)
    ensures WriteAt(base, offset, data)[offset..offset + |data|] == data
  {
  }
}

/** Synchronisation of one cached regular file with the volume master.

    A state machine over the cache (content, the two versions, the COMPLETE flag and
    the `updated` and `modified` offsets), the master's copy, and the history of what
    the master held at each of its versions.  Both sides may change their sizes; what is
    said of whole contents is said of runs that do not. */
module FileSync {
  import opened Contents
  import opened Intervals

  /** The local copy and its metadata. */
  datatype Cache = Cache(
    content: seq<Byte>,
    localVersion: nat,
    masterVersion: nat,
    complete: bool,
    updated: set<int>,
    modified: set<int>)

  datatype Master = Master(content: seq<Byte>, version: nat)

  /** `history[v]` is what the master held at its version `v`. */
  datatype State = State(cache: Cache, master: Master, history: map<nat, seq<Byte>>)

  datatype Step =
    | LocalWrite(offset: nat, data: seq<Byte>, wide: Interval)
    | MasterWrite(content: seq<Byte>)
    | Detect
    | Truncate(size: nat, kept: nat)
    | Confirm(chunk: Interval)
    | Copy(chunk: Interval, blocks: set<int>)
    | MarkComplete
    | Reintegrate(done: set<int>, writes: nat, size: nat, finished: bool, versionSent: bool)
    | DiscardLocal
    | DiscardRemote

  // ----- the steps -----

  /** A write of `data` at `offset` marks `wide`: the written range, from the end of the file if
      that comes first, and whatever updated bytes next to it were taken along to fill up
      whole blocks. */
  ghost predicate MayWrite(c: Cache, offset: nat, data: seq<Byte>, wide: Interval) {
    var from, end := Min(offset, |c.content|), offset + |data|;
    && wide.start <= from && end <= wide.end <= Max(|c.content|, end)
    && Range(wide.start, wide.end) - Range(from, end) <= c.updated
  }

  ghost function Written(c: Cache, offset: nat, data: seq<Byte>, wide: Interval): Cache {
    var range := Range(wide.start, wide.end);
    c.(content := WriteAt(c.content, offset, data),
       localVersion := c.localVersion + 1,
       updated := c.updated + range,
       modified := c.modified + range)
  }

  /** Clear the updated tree because the master moved on to `version`. */
  function Cleared(c: Cache, version: nat): Cache {
    c.(complete := false,
       localVersion :=
         if c.localVersion > c.masterVersion then
           if c.localVersion <= version then version + 1 else c.localVersion
         else
           if c.localVersion < version then version else c.localVersion,
       masterVersion := version,
       updated := c.modified)
  }

  /** The size becomes `kept`, which is the `size` of the master unless a local modification
      reaches further; what is kept beyond the master's end counts as updated. */
  ghost predicate MayTruncate(c: Cache, size: nat, kept: nat) {
    size <= kept && c.modified <= Range(0, kept) && (kept == size || kept - 1 in c.modified)
  }

  ghost function Truncated(c: Cache, size: nat, kept: nat): Cache {
    if kept == |c.content| then c
    else c.(content := Resized(c.content, kept), updated := c.updated * Range(0, kept) + Range(size, kept))
  }

  /** A chunk whose checksums agree is marked updated and no longer modified. */
  ghost function Confirmed(c: Cache, chunk: Interval): Cache {
    var range := Range(chunk.start, chunk.end);
    c.(modified := c.modified - range, updated := c.updated + range)
  }

  /** A chunk whose checksums differ: the bytes of the blocks to be updated are copied
      from the master and the whole chunk is marked updated. */
  ghost function Copied(c: Cache, m: Master, chunk: Interval, blocks: set<int>): Cache {
    var range := Range(chunk.start, chunk.end);
    c.(content := Overlay(c.content, m.content, range * blocks), updated := c.updated + range)
  }

  /** Reading from the master is allowed when the local file is modified, which turns the
      version check off, or when the master is still at the recorded version. */
  predicate MayRead(c: Cache, m: Master) {
    c.localVersion != c.masterVersion || m.version == c.masterVersion
  }

  ghost predicate SameOn(a: seq<Byte>, b: seq<Byte>, chunk: Interval)
    requires chunk.end <= |a| && chunk.end <= |b|
  {
    forall o {:trigger a[o]} {:trigger b[o]} :: chunk.start <= o < chunk.end ==> a[o] == b[o]
  }

  /** Versions after a reintegration whose data writes raised the master's version by
      `writes`; `left` says that the tree of modified intervals is not empty, `all` that it is
      and that the closing version bump reached the master. */
  function ReintegratedLocal(c: Cache, writes: nat, all: bool, left: bool): nat {
    var mv := c.masterVersion + writes;
    if all then c.localVersion
    else if left then (if c.localVersion <= mv then mv + 1 else c.localVersion)
    else (if c.localVersion < mv then mv else c.localVersion)
  }

  function ReintegratedMaster(c: Cache, writes: nat, all: bool): nat {
    if all then c.localVersion else c.masterVersion + writes
  }

  function Larger(a: nat, b: nat): nat { if a > b then a else b }

  ghost predicate Enabled(s: State, step: Step) {
    var c, m := s.cache, s.master;
    match step
    case LocalWrite(offset, data, wide) => MayWrite(c, offset, data, wide)
    case MasterWrite(content) => true
    case Detect => m.version != c.masterVersion
    case Truncate(size, kept) => MayTruncate(c, size, kept)
    case Confirm(chunk) =>
      && chunk.start <= chunk.end <= |c.content| && chunk.end <= |m.content|
      && SameOn(c.content, m.content, chunk)
      && MayRead(c, m)
    case Copy(chunk, blocks) =>
      && chunk.start <= chunk.end <= |c.content| && chunk.end <= |m.content|
      && blocks !! c.modified
      && Range(chunk.start, chunk.end) - blocks <= c.updated + c.modified
      && MayRead(c, m)
    case MarkComplete => Range(0, |c.content|) <= c.updated
    case Reintegrate(done, writes, size, finished, _) =>
      && m.version == c.masterVersion < c.localVersion
      && done <= c.modified && (finished ==> done == c.modified)
      && (done != {} || size != |m.content| ==> writes > 0)
      && done <= Range(0, size)
    case DiscardLocal => true
    case DiscardRemote => true
  }

  ghost function Apply(s: State, step: Step): State
    requires Enabled(s, step)
  {
    var c, m := s.cache, s.master;
    match step
    case LocalWrite(offset, data, wide) => s.(cache := Written(c, offset, data, wide))
    case MasterWrite(content) => MasterMoves(s, content, m.version + 1)
    case Detect => s.(cache := Cleared(c, m.version))
    case Truncate(size, kept) => s.(cache := Truncated(c, size, kept))
    case Confirm(chunk) => s.(cache := Confirmed(c, chunk))
    case Copy(chunk, blocks) => s.(cache := Copied(c, m, chunk, blocks))
    case MarkComplete => s.(cache := c.(complete := true))
    case Reintegrate(done, writes, size, finished, versionSent) =>
      var all := finished && versionSent;
      MasterMoves(s, Overlay(Resized(m.content, size), c.content, done), ReintegratedMaster(c, writes, all))
        .(cache := c.(modified := c.modified - done,
                      localVersion := ReintegratedLocal(c, writes, all, !finished),
                      masterVersion := ReintegratedMaster(c, writes, all)))
    case DiscardLocal =>
      var version := Larger(c.localVersion, m.version) + 1;
      MasterMoves(s, m.content, version)
        .(cache := c.(localVersion := version, masterVersion := version, complete := false,
                      updated := {}, modified := {}))
    case DiscardRemote =>
      var version := if c.localVersion > m.version then c.localVersion else m.version + 1;
      MasterMoves(s, m.content, version)
        .(cache := c.(localVersion := version + 1, masterVersion := version, complete := false,
                      updated := {}, modified := c.modified + c.updated))
  }

  /** The master takes on a content under a version number. */
  function MasterMoves(s: State, content: seq<Byte>, version: nat): State {
    s.(master := Master(content, version), history := s.history[version := content])
  }

  // ----- what every run keeps -----

  /** Both sides changed since they last agreed. */
  predicate Diverged(s: State) {
    s.cache.localVersion > s.cache.masterVersion && s.master.version > s.cache.masterVersion
  }

  /** Offset `o` of the cache holds the master's byte as of the recorded version. */
  ghost predicate HoldsMasterByte(s: State, o: int) {
    && s.cache.masterVersion in s.history
    && 0 <= o < |s.cache.content|
    && o < |s.history[s.cache.masterVersion]|
    && s.cache.content[o] == s.history[s.cache.masterVersion][o]
  }

  ghost predicate Coherent(s: State) {
    forall o :: o in s.cache.updated && o !in s.cache.modified ==> HoldsMasterByte(s, o)
  }

  ghost predicate Shaped(s: State) {
    var c, n := s.cache, |s.cache.content|;
    && |s.master.content| == n
    && c.updated <= Range(0, n) && c.modified <= Range(0, n)
    && c.masterVersion in s.history
    && s.master.version in s.history && s.history[s.master.version] == s.master.content
    && (forall v :: v in s.history ==> |s.history[v]| == n && v <= s.master.version)
  }

  ghost predicate VersionsOrdered(s: State) {
    var c := s.cache;
    && c.masterVersion <= c.localVersion
    && c.masterVersion <= s.master.version
    && (c.modified != {} ==> c.masterVersion < c.localVersion)
  }

  ghost predicate Inv(s: State) {
    && Shaped(s)
    && VersionsOrdered(s)
    && (s.cache.complete ==> s.cache.updated == Range(0, |s.cache.content|))
    && (Diverged(s) || Coherent(s))
  }

  /** The step does not change a size from `n`. */
  predicate KeepsSize(step: Step, n: nat) {
    match step
    case LocalWrite(offset, data, _) => offset + |data| <= n
    case MasterWrite(content) => |content| == n
    case Truncate(size, _) => size == n
    case Reintegrate(_, _, size, _, _) => size == n
    case _ => true
  }

  ghost predicate EnabledAt(s: State, step: Step) {
    Enabled(s, step) && KeepsSize(step, |s.cache.content|)
  }

  lemma StepKeepsShape(s: State, step: Step)
    requires Inv(s) && EnabledAt(s, step)
    ensures Shaped(Apply(s, step)) && VersionsOrdered(Apply(s, step))
  {
  }

  /** What the master held at a version is never rewritten. */
  lemma StepKeepsHistory(s: State, step: Step)
    requires Inv(s) && EnabledAt(s, step)
    ensures forall v :: v in s.history ==> v in Apply(s, step).history && Apply(s, step).history[v] == s.history[v]
  {
    if step.Reintegrate? && step.writes == 0 {
      assert Overlay(Resized(s.master.content, step.size), s.cache.content, step.done) == s.master.content;
    }
  }

  lemma StepKeepsCoherence(s: State, step: Step)
    requires Inv(s) && EnabledAt(s, step)
    ensures Diverged(Apply(s, step)) || Coherent(Apply(s, step))
  {
    var t := Apply(s, step);
    if !Diverged(t) {
      forall o | o in t.cache.updated && o !in t.cache.modified ensures HoldsMasterByte(t, o) {
        if o in s.cache.updated && o !in s.cache.modified && !Diverged(s) {
          assert HoldsMasterByte(s, o);
        }
        if step.Copy? && o in Range(step.chunk.start, step.chunk.end) {
          assert o in step.blocks || o in s.cache.updated + s.cache.modified;
          assert t.cache.content[o] == s.master.content[o];
        }
      }
    }
  }

  lemma StepKeepsInv(s: State, step: Step)
    requires Inv(s) && EnabledAt(s, step)
    ensures Inv(Apply(s, step))
  {
    StepKeepsShape(s, step);
    StepKeepsCoherence(s, step);
  }

  // ----- whole runs -----

  ghost predicate StepsTo(s: State, step: Step, t: State) {
    Enabled(s, step) && t == Apply(s, step)
  }

  /** A local file just created from a directory entry of the master. */
  ghost predicate Fresh(s: State) {
    var c, m := s.cache, s.master;
    && |c.content| == |m.content|
    && c.localVersion == c.masterVersion == m.version
    && c.updated == {} && c.modified == {}
    && (c.complete <==> |m.content| == 0)
    && s.history == map[m.version := m.content]
  }

  ghost predicate Run(states: seq<State>, steps: seq<Step>) {
    && |states| == |steps| + 1
    && Fresh(states[0])
    && forall i :: 0 <= i < |steps| ==> StepsTo(states[i], steps[i], states[i + 1])
  }

  /** A run in which no size changes. */
  ghost predicate SizedRun(states: seq<State>, steps: seq<Step>) {
    Run(states, steps) && forall i :: 0 <= i < |steps| ==> KeepsSize(steps[i], |states[0].cache.content|)
  }

  lemma {:induction false} RunKeepsInv(states: seq<State>, steps: seq<Step>, i: nat)
    requires SizedRun(states, steps) && i < |states|
    ensures Inv(states[i]) && |states[i].cache.content| == |states[0].cache.content|
  {
    if i == 0 {
      var n := |states[0].cache.content|;
      assert n == 0 ==> Range(0, n) == {};
    } else {
      RunKeepsInv(states, steps, i - 1);
      assert StepsTo(states[i - 1], steps[i - 1], states[i]);
      StepKeepsInv(states[i - 1], steps[i - 1]);
    }
  }

  /** Every recorded version was really held by the master at some point of the run. */
  lemma {:induction false} HistoryHappened(states: seq<State>, steps: seq<Step>, i: nat, v: nat) returns (k: nat)
    requires SizedRun(states, steps) && i < |states|
    requires v in states[i].history
    ensures k <= i && states[k].master == Master(states[i].history[v], v)
  {
    RunKeepsInv(states, steps, i);
    if v == states[i].master.version {
      k := i;
    } else {
      assert i > 0;
      var s, step := states[i - 1], steps[i - 1];
      RunKeepsInv(states, steps, i - 1);
      assert StepsTo(s, step, states[i]);
      StepKeepsHistory(s, step);
      k := HistoryHappened(states, steps, i - 1, v);
    }
  }

  /** In every run, unless both sides moved, an offset that is updated and not modified
      holds the byte the master held when its version was the recorded one. */
  lemma UpdatedBytesAreMasterBytes(states: seq<State>, steps: seq<Step>, i: nat, o: int) returns (k: nat)
    requires SizedRun(states, steps) && i < |states|
    requires !Diverged(states[i])
    requires o in states[i].cache.updated && o !in states[i].cache.modified
    ensures k <= i && states[k].master.version == states[i].cache.masterVersion
    ensures 0 <= o < |states[i].cache.content| == |states[k].master.content|
    ensures states[i].cache.content[o] == states[k].master.content[o]
  {
    RunKeepsInv(states, steps, i);
    k := HistoryHappened(states, steps, i, states[i].cache.masterVersion);
    assert HoldsMasterByte(states[i], o);
  }

  /** A complete file whose versions agree is exactly one version of the master, wherever writes
      by other nodes fall between the steps. */
  lemma CompleteIsOneMasterVersion(states: seq<State>, steps: seq<Step>, i: nat) returns (k: nat)
    requires SizedRun(states, steps) && i < |states|
    requires states[i].cache.complete && states[i].cache.localVersion == states[i].cache.masterVersion
    ensures k <= i && states[k].master == Master(states[i].cache.content, states[i].cache.masterVersion)
  {
    var s := states[i];
    RunKeepsInv(states, steps, i);
    k := HistoryHappened(states, steps, i, s.cache.masterVersion);
    forall o | 0 <= o < |s.cache.content| ensures s.cache.content[o] == s.history[s.cache.masterVersion][o] {
      assert o in s.cache.updated;
      assert HoldsMasterByte(s, o);
    }
  }

  // ----- the decision predicates of update.h, for a regular file -----

  predicate UpdateP(c: Cache, remoteVersion: nat) {
    !c.complete || (c.localVersion == c.masterVersion && remoteVersion > c.masterVersion)
  }

  predicate ReintegrateP(c: Cache, remoteVersion: nat) {
    remoteVersion == c.masterVersion && c.localVersion > c.masterVersion
  }

  predicate DataConflict(c: Cache, remoteVersion: nat) {
    c.localVersion > c.masterVersion && remoteVersion > c.masterVersion
  }

  predicate InSync(c: Cache, remoteVersion: nat) {
    c.localVersion == c.masterVersion == remoteVersion
  }

  function Count(b: bool): nat { if b then 1 else 0 }

  /** In every reachable state a complete file is in exactly one situation. */
  lemma ExactlyOneSituation(states: seq<State>, steps: seq<Step>, i: nat)
    requires SizedRun(states, steps) && i < |states|
    requires states[i].cache.complete
    ensures var c, v := states[i].cache, states[i].master.version;
            Count(InSync(c, v)) + Count(UpdateP(c, v)) + Count(ReintegrateP(c, v)) + Count(DataConflict(c, v)) == 1
  {
    RunKeepsInv(states, steps, i);
  }

  /** Offsets the next update has to fetch. */
  ghost function ToFetch(c: Cache): set<int> {
    Range(0, |c.content|) - c.updated - c.modified
  }

  /** Either resolution ends a conflict: discarding the local side leaves the whole file
      to fetch, discarding the remote side leaves a reintegration that, with what is
      still to fetch, makes up the whole file. */
  lemma ResolutionLeavesConflict(states: seq<State>, steps: seq<Step>, i: nat)
    requires SizedRun(states, steps) && i < |states|
    ensures |states[i].cache.content| == |states[i].master.content|
    ensures var t := Apply(states[i], DiscardLocal);
            && !DataConflict(t.cache, t.master.version) && UpdateP(t.cache, t.master.version)
            && ToFetch(t.cache) == Range(0, |t.cache.content|)
    ensures var t := Apply(states[i], DiscardRemote);
            && !DataConflict(t.cache, t.master.version) && ReintegrateP(t.cache, t.master.version)
            && ToFetch(t.cache) + t.cache.modified == Range(0, |t.cache.content|)
  {
    RunKeepsInv(states, steps, i);
  }

  // ----- resolving a conflict and synchronising again -----

  ghost predicate InBounds(chunks: seq<Interval>, n: nat) {
    forall i :: 0 <= i < |chunks| ==> chunks[i].start <= chunks[i].end <= n
  }

  /** Fetch the chunks one after the other, nothing being modified locally. */
  ghost function FetchAll(s: State, chunks: seq<Interval>): (t: State)
    requires |s.cache.content| == |s.master.content| && InBounds(chunks, |s.cache.content|)
    requires s.cache.modified == {} && s.master.version == s.cache.masterVersion
    ensures |t.cache.content| == |s.cache.content| && t.master == s.master && t.history == s.history
    ensures t.cache == s.cache.(content := t.cache.content, updated := t.cache.updated)
    decreases |chunks|
  {
    if chunks == [] then s else FetchAll(FetchOne(s, chunks[0]), chunks[1..])
  }

  ghost function FetchOne(s: State, chunk: Interval): (t: State)
    requires |s.cache.content| == |s.master.content| && chunk.start <= chunk.end <= |s.cache.content|
    requires s.cache.modified == {} && s.master.version == s.cache.masterVersion
    ensures t.master == s.master && t.history == s.history
    ensures t.cache == s.cache.(
      content := Overlay(s.cache.content, s.master.content, Range(chunk.start, chunk.end)),
      updated := s.cache.updated + Range(chunk.start, chunk.end))
  {
    var c, all := s.cache, Range(0, |s.cache.content|);
    if SameOn(c.content, s.master.content, chunk) then
      assert Overlay(c.content, s.master.content, Range(chunk.start, chunk.end)) == c.content;
      Apply(s, Confirm(chunk))
    else
      assert Range(chunk.start, chunk.end) * all == Range(chunk.start, chunk.end);
      Apply(s, Copy(chunk, all))
  }

  lemma {:induction false} FetchAllBytes(s: State, chunks: seq<Interval>)
    requires |s.cache.content| == |s.master.content| && InBounds(chunks, |s.cache.content|)
    requires s.cache.modified == {} && s.master.version == s.cache.masterVersion
    ensures FetchAll(s, chunks).cache.updated == s.cache.updated + Cover(chunks)
    ensures FetchAll(s, chunks).cache.content == Overlay(s.cache.content, s.master.content, Cover(chunks))
    decreases |chunks|
  {
    if chunks != [] {
      var r := FetchOne(s, chunks[0]);
      FetchAllBytes(r, chunks[1..]);
      CoverSplit(chunks, 0);
      assert chunks[..0] == [];
    }
  }

  /** Keep the local side of a conflict, send it to the master, then update the file. */
  ghost function AfterDiscardRemote(s: State, writes: nat, chunks: seq<Interval>): State
    requires Inv(s) && InBounds(chunks, |s.cache.content|) && Cover(chunks) == Range(0, |s.cache.content|)
    requires s.cache.modified + s.cache.updated != {} ==> writes > 0
  {
    var kept := Apply(s, DiscardRemote);
    var sent := Apply(kept, Reintegrate(kept.cache.modified, writes, |kept.master.content|, true, true));
    FetchAllBytes(sent, chunks);
    Apply(FetchAll(sent, chunks), MarkComplete)
  }

  /** Both sides end with the local bytes where the cache had any say, the master's elsewhere. */
  lemma DiscardRemoteConverges(s: State, writes: nat, chunks: seq<Interval>)
    requires Inv(s) && InBounds(chunks, |s.cache.content|) && Cover(chunks) == Range(0, |s.cache.content|)
    requires s.cache.modified + s.cache.updated != {} ==> writes > 0
    ensures var t := AfterDiscardRemote(s, writes, chunks);
            && t.cache.complete && InSync(t.cache, t.master.version)
            && t.cache.content == t.master.content
            && t.master.content == Overlay(s.master.content, s.cache.content, s.cache.modified + s.cache.updated)
  {
    var kept := Apply(s, DiscardRemote);
    var sent := Apply(kept, Reintegrate(kept.cache.modified, writes, |kept.master.content|, true, true));
    FetchAllBytes(sent, chunks);
  }

  /** Give up the local side of a conflict, then update the file. */
  ghost function AfterDiscardLocal(s: State, chunks: seq<Interval>): State
    requires Inv(s) && InBounds(chunks, |s.cache.content|) && Cover(chunks) == Range(0, |s.cache.content|)
  {
    var dropped := Apply(s, DiscardLocal);
    FetchAllBytes(dropped, chunks);
    Apply(FetchAll(dropped, chunks), MarkComplete)
  }

  /** Both sides end with what the master held. */
  lemma DiscardLocalConverges(s: State, chunks: seq<Interval>)
    requires Inv(s) && InBounds(chunks, |s.cache.content|) && Cover(chunks) == Range(0, |s.cache.content|)
    ensures var t := AfterDiscardLocal(s, chunks);
            && t.cache.complete && InSync(t.cache, t.master.version)
            && t.cache.content == t.master.content == s.master.content
  {
    FetchAllBytes(Apply(s, DiscardLocal), chunks);
  }

  // ----- locally written bytes -----

  /** What every run keeps, whatever happens to the sizes. */
  ghost predicate Marked(s: State) {
    && s.cache.updated <= Range(0, |s.cache.content|)
    && s.cache.modified <= Range(0, |s.cache.content|)
  }

  lemma StepKeepsMarked(s: State, step: Step)
    requires Marked(s) && Enabled(s, step)
    ensures Marked(Apply(s, step))
  {
  }

  lemma {:induction false} RunKeepsMarked(states: seq<State>, steps: seq<Step>, i: nat)
    requires Run(states, steps) && i < |states|
    ensures Marked(states[i])
  {
    if i > 0 {
      RunKeepsMarked(states, steps, i - 1);
      assert StepsTo(states[i - 1], steps[i - 1], states[i]);
      StepKeepsMarked(states[i - 1], steps[i - 1]);
    }
  }

  /** The step neither gives up the local side nor overwrites offset `o` locally. */
  ghost predicate Spares(step: Step, o: int) {
    && !step.DiscardLocal?
    && (step.LocalWrite? ==> !(step.offset <= o < step.offset + |step.data|))
  }

  /** The master holds byte `b` at offset `o`. */
  ghost predicate MasterHas(m: Master, o: int, b: Byte) {
    0 <= o < |m.content| && m.content[o] == b
  }

  lemma StepKeepsLocalByte(s: State, step: Step, o: int)
    requires Marked(s) && Enabled(s, step) && Spares(step, o) && o in s.cache.modified
    ensures var t := Apply(s, step);
            && 0 <= o < |s.cache.content| && o < |t.cache.content|
            && t.cache.content[o] == s.cache.content[o]
            && (o in t.cache.modified || MasterHas(t.master, o, s.cache.content[o]))
  {
  }

  /** In every run, whatever the sizes: a locally modified byte stays, and stays marked, until
      the master holds it. */
  lemma {:induction false} LocalByteStaysUntilMasterHasIt(
    states: seq<State>, steps: seq<Step>, i: nat, j: nat, o: int) returns (k: nat)
    requires Run(states, steps) && i <= j < |states|
    requires o in states[i].cache.modified
    requires forall m :: i <= m < j ==> Spares(steps[m], o)
    ensures i <= k <= j && 0 <= o < |states[i].cache.content|
    ensures forall m :: i <= m <= k ==> o < |states[m].cache.content|
    ensures forall m :: i <= m <= k ==> states[m].cache.content[o] == states[i].cache.content[o]
    ensures forall m :: i <= m < k ==> o in states[m].cache.modified
    ensures (k == j && o in states[k].cache.modified) || MasterHas(states[k].master, o, states[i].cache.content[o])
    decreases j - i
  {
    RunKeepsMarked(states, steps, i);
    if i == j {
      k := i;
    } else {
      assert StepsTo(states[i], steps[i], states[i + 1]);
      StepKeepsLocalByte(states[i], steps[i], o);
      if o in states[i + 1].cache.modified {
        k := LocalByteStaysUntilMasterHasIt(states, steps, i + 1, j, o);
      } else {
        k := i + 1;
      }
    }
  }

  /** A local write stores its data, leaves the other bytes, fills a gap with zeroes, and marks
      what it wrote; anything else that it marks was updated, or lies in the gap. */
  lemma WriteStores(s: State, offset: nat, data: seq<Byte>, wide: Interval)
    requires Enabled(s, LocalWrite(offset, data, wide))
    ensures var c, d := s.cache, Apply(s, LocalWrite(offset, data, wide)).cache;
            && |d.content| == Max(|c.content|, offset + |data|)
            && d.content[offset..offset + |data|] == data
            && (forall o :: 0 <= o < |c.content| && !(offset <= o < offset + |data|) ==> d.content[o] == c.content[o])
            && (forall o :: |c.content| <= o < offset ==> d.content[o] == 0)
            && c.modified + Range(offset, offset + |data|) <= d.modified
            && d.modified <= c.modified + c.updated + Range(Min(offset, |c.content|), offset + |data|)
  {
    StoredAt(s.cache.content, offset, data);
  }

  /** A byte that was written locally stays, and stays marked, until the master holds it. */
  lemma WrittenByteStays(states: seq<State>, steps: seq<Step>, i: nat, j: nat, o: int) returns (k: nat)
    requires Run(states, steps) && i < j < |states| && steps[i].LocalWrite?
    requires steps[i].offset <= o < steps[i].offset + |steps[i].data|
    requires forall m :: i < m < j ==> Spares(steps[m], o)
    ensures i < k <= j
    ensures forall m :: i < m <= k ==> o < |states[m].cache.content|
    ensures forall m :: i < m <= k ==> states[m].cache.content[o] == steps[i].data[o - steps[i].offset]
    ensures forall m :: i < m < k ==> o in states[m].cache.modified
    ensures (k == j && o in states[k].cache.modified)
            || MasterHas(states[k].master, o, steps[i].data[o - steps[i].offset])
  {
    var step := steps[i];
    assert StepsTo(states[i], step, states[i + 1]);
    WriteStores(states[i], step.offset, step.data, step.wide);
    var content := states[i + 1].cache.content;
    assert content[o] == content[step.offset..step.offset + |step.data|][o - step.offset];
    assert o in Range(step.offset, step.offset + |step.data|);
    k := LocalByteStaysUntilMasterHasIt(states, steps, i + 1, j, o);
  }

  // ----- what the steps do to versions and sizes -----

  /** No step lowers the local version, the recorded one or the master's. */
  lemma VersionsNeverGoBack(s: State, step: Step)
    requires VersionsOrdered(s) && Enabled(s, step)
    ensures var t := Apply(s, step);
            && s.cache.localVersion <= t.cache.localVersion
            && s.cache.masterVersion <= t.cache.masterVersion
            && s.master.version <= t.master.version
  {
  }

  /** Clearing records the master's version, takes every mark but those of modified bytes, and
      keeps the file as modified, or unmodified, as it was; the local version rises only as far
      as that needs. */
  lemma DetectKeepsModified(s: State)
    requires VersionsOrdered(s) && Enabled(s, Detect)
    ensures var c, d := s.cache, Apply(s, Detect).cache;
            && d.masterVersion == s.master.version && d.content == c.content && !d.complete
            && d.updated == d.modified == c.modified
            && (d.localVersion > d.masterVersion <==> c.localVersion > c.masterVersion)
            && (d.localVersion == c.localVersion || d.localVersion <= d.masterVersion + 1)
  {
  }

  /** A truncation keeps every byte below both sizes, modified or not, with its marks, and fills
      up with zeroes. */
  lemma TruncationKeeps(s: State, size: nat, kept: nat)
    requires Marked(s) && Enabled(s, Truncate(size, kept))
    ensures var c, d := s.cache, Apply(s, Truncate(size, kept)).cache;
            && |d.content| == kept && d.modified == c.modified
            && (forall o :: 0 <= o < |c.content| && o < kept ==> d.content[o] == c.content[o])
            && (forall o :: |c.content| <= o < kept ==> d.content[o] == 0)
            && (forall o :: 0 <= o < size && o < kept ==> (o in d.updated <==> o in c.updated))
            && d.updated <= Range(0, kept)
  {
  }

  /** Discarding the local side puts all three versions at the least number above both sides, and
      discarding the remote side the master at the least number not below the local version
      and above its own, the local version right behind it.  No content changes. */
  lemma ResolutionVersions(s: State)
    requires VersionsOrdered(s)
    ensures var t := Apply(s, DiscardLocal); var v := t.master.version;
            && t.cache.localVersion == t.cache.masterVersion == v
            && v > s.cache.localVersion && v > s.master.version
            && (v == s.cache.localVersion + 1 || v == s.master.version + 1)
            && t.cache.content == s.cache.content && t.master.content == s.master.content
    ensures var t := Apply(s, DiscardRemote); var v := t.master.version;
            && t.cache.masterVersion == v && t.cache.localVersion == v + 1
            && v >= s.cache.localVersion && v > s.master.version
            && (v == s.cache.localVersion || v == s.master.version + 1)
            && t.cache.content == s.cache.content && t.master.content == s.master.content
  {
  }

  /** A reintegration leaves the recorded version at the master's.  With everything sent and the
      closing call delivered that is the local version; otherwise the master has moved by the
      writes, and the local version rises only if it has to: to the master's, or above it while
      something is left to send. */
  lemma ReintegrationVersions(s: State, done: set<int>, writes: nat, size: nat, finished: bool, versionSent: bool)
    requires VersionsOrdered(s) && Enabled(s, Reintegrate(done, writes, size, finished, versionSent))
    ensures var c, t := s.cache, Apply(s, Reintegrate(done, writes, size, finished, versionSent)); var d := t.cache;
            && d.masterVersion == t.master.version && d.content == c.content && d.modified == c.modified - done
            && (finished && versionSent ==> d.localVersion == d.masterVersion == c.localVersion)
            && (!(finished && versionSent) ==> t.master.version == s.master.version + writes)
            && (!finished ==> d.localVersion > d.masterVersion)
            && (d.localVersion == c.localVersion || d.localVersion == d.masterVersion + if finished then 0 else 1)
            && |t.master.content| == size
            && (forall o :: o in done && o < |c.content| ==> 0 <= o < size && t.master.content[o] == c.content[o])
            && (forall o :: 0 <= o < size && o < |s.master.content| && o !in done ==> t.master.content[o] == s.master.content[o])
  {
  }

  // ----- a batch of chunks -----

  /** The bytes of the chunks that are the same in both contents. */
  ghost function EqualBytes(a: seq<Byte>, b: seq<Byte>, chunks: seq<Interval>): set<int>
    requires |a| == |b| && InBounds(chunks, |a|)
    decreases |chunks|
  {
    if chunks == [] then {}
    else
      var last := chunks[|chunks| - 1];
      EqualBytes(a, b, chunks[..|chunks| - 1]) + if SameOn(a, b, last) then Range(last.start, last.end) else {}
  }

  lemma {:induction false} EqualBytesCovered(a: seq<Byte>, b: seq<Byte>, chunks: seq<Interval>)
    requires |a| == |b| && InBounds(chunks, |a|)
    ensures EqualBytes(a, b, chunks) <= Cover(chunks)
    ensures forall o :: o in EqualBytes(a, b, chunks) ==> 0 <= o < |a| && a[o] == b[o]
    decreases |chunks|
  {
    if chunks != [] {
      var n := |chunks| - 1;
      EqualBytesCovered(a, b, chunks[..n]);
      CoverSnoc(chunks[..n], chunks[n]);
      assert chunks == chunks[..n] + [chunks[n]];
    }
  }

  lemma {:induction false} EqualIncluded(a: seq<Byte>, b: seq<Byte>, chunks: seq<Interval>, i: nat)
    requires |a| == |b| && InBounds(chunks, |a|) && i < |chunks| && SameOn(a, b, chunks[i])
    ensures Range(chunks[i].start, chunks[i].end) <= EqualBytes(a, b, chunks)
    decreases |chunks|
  {
    if i < |chunks| - 1 {
      EqualIncluded(a, b, chunks[..|chunks| - 1], i);
    }
  }

  /** The cache when its batch begins: cleared, if the local file is not modified and the master
      has moved from the recorded version. */
  ghost function Ready(c: Cache, m: Master): Cache {
    if MayRead(c, m) then c else Cleared(c, m.version)
  }

  /** The cache after a batch: chunks found equal are confirmed, of the others the bytes in
      blocks are copied. */
  ghost function Batched(c: Cache, m: Master, blocks: set<int>, chunks: seq<Interval>): Cache
    requires |c.content| == |m.content| && InBounds(chunks, |c.content|)
  {
    var d := Ready(c, m);
    d.(content := Overlay(d.content, m.content, Cover(chunks) * blocks),
       updated := d.updated + Cover(chunks),
       modified := d.modified - EqualBytes(d.content, m.content, chunks))
  }

  /** The steps lead from one state to the other. */
  ghost predicate Leads(s: State, steps: seq<Step>, t: State)
    decreases |steps|
  {
    if steps == [] then t == s
    else
      var front, last := steps[..|steps| - 1], steps[|steps| - 1];
      exists u :: Leads(s, front, u) && StepsTo(u, last, t)
  }

  lemma LeadsOn(s: State, steps: seq<Step>, u: State, step: Step, t: State)
    requires Leads(s, steps, u) && StepsTo(u, step, t)
    ensures Leads(s, steps + [step], t)
  {
    assert (steps + [step])[..|steps|] == steps;
  }

  lemma LeadsLast(s: State, steps: seq<Step>, step: Step, t: State) returns (u: State)
    requires Leads(s, steps + [step], t)
    ensures Leads(s, steps, u) && StepsTo(u, step, t)
  {
    assert (steps + [step])[..|steps|] == steps;
    u :| Leads(s, steps, u) && StepsTo(u, step, t);
  }

  lemma {:induction false} LeadsFurther(s: State, a: seq<Step>, u: State, b: seq<Step>, t: State)
    requires Leads(s, a, u) && Leads(u, b, t)
    ensures Leads(s, a + b, t)
    decreases |b|
  {
    if b == [] {
      assert a + b == a;
    } else {
      var front, last := b[..|b| - 1], b[|b| - 1];
      assert b == front + [last];
      var w := LeadsLast(u, front, last, t);
      LeadsFurther(s, a, u, front, w);
      LeadsOn(s, a + front, w, last, t);
      assert a + front + [last] == a + b;
    }
  }

  /** Steps that keep the sizes keep the invariant. */
  lemma {:induction false} LeadsKeepsInv(s: State, steps: seq<Step>, t: State)
    requires Inv(s) && Leads(s, steps, t)
    requires forall i :: 0 <= i < |steps| ==> KeepsSize(steps[i], |s.cache.content|)
    ensures Inv(t) && |t.cache.content| == |s.cache.content|
    decreases |steps|
  {
    if steps != [] {
      var n := |steps| - 1;
      var u :| Leads(s, steps[..n], u) && StepsTo(u, steps[n], t);
      LeadsKeepsInv(s, steps[..n], u);
      StepKeepsInv(u, steps[n]);
    }
  }

  /** The equal ones of the chunks are confirmed. */
  ghost function AllConfirmed(c: Cache, m: Master, chunks: seq<Interval>): Cache
    requires |c.content| == |m.content| && InBounds(chunks, |c.content|)
  {
    var same := EqualBytes(c.content, m.content, chunks);
    c.(modified := c.modified - same, updated := c.updated + same)
  }

  lemma {:induction false} ConfirmRun(s: State, start: State, steps0: seq<Step>, chunks: seq<Interval>) returns (steps: seq<Step>)
    requires |s.cache.content| == |s.master.content| && InBounds(chunks, |s.cache.content|) && MayRead(s.cache, s.master)
    requires Leads(start, steps0, s) && forall i :: 0 <= i < |steps0| ==> KeepsSize(steps0[i], |s.cache.content|)
    ensures Leads(start, steps, s.(cache := AllConfirmed(s.cache, s.master, chunks)))
    ensures forall i :: 0 <= i < |steps| ==> KeepsSize(steps[i], |s.cache.content|)
    decreases |chunks|
  {
    if chunks == [] {
      steps := steps0;
      assert s.(cache := AllConfirmed(s.cache, s.master, chunks)) == s;
    } else {
      var n := |chunks| - 1;
      var front, last := chunks[..n], chunks[n];
      steps := ConfirmRun(s, start, steps0, front);
      if SameOn(s.cache.content, s.master.content, last) {
        var u := s.(cache := AllConfirmed(s.cache, s.master, front));
        var t := s.(cache := AllConfirmed(s.cache, s.master, chunks));
        assert t == Apply(u, Confirm(last));
        LeadsOn(start, steps, u, Confirm(last), t);
        steps := steps + [Confirm(last)];
      }
    }
  }

  /** The bytes of the chunks that lie in blocks are copied. */
  ghost function AllCopied(c: Cache, m: Master, blocks: set<int>, chunks: seq<Interval>): Cache {
    c.(content := Overlay(c.content, m.content, Cover(chunks) * blocks), updated := c.updated + Cover(chunks))
  }

  /** Every chunk is equal and confirmed already, or can be copied. */
  lemma CopyRun(s: State, start: State, steps0: seq<Step>, blocks: set<int>, chunks: seq<Interval>) returns (steps: seq<Step>)
    requires |s.cache.content| == |s.master.content| && InBounds(chunks, |s.cache.content|) && MayRead(s.cache, s.master)
    requires blocks !! s.cache.modified && Cover(chunks) - blocks <= s.cache.updated + s.cache.modified
    requires EqualMarked(s, chunks)
    requires Leads(start, steps0, s) && forall i :: 0 <= i < |steps0| ==> KeepsSize(steps0[i], |s.cache.content|)
    ensures Leads(start, steps, s.(cache := AllCopied(s.cache, s.master, blocks, chunks)))
    ensures forall i :: 0 <= i < |steps| ==> KeepsSize(steps[i], |s.cache.content|)
  {
    steps := steps0;
    NothingCopied(s, blocks);
    assert chunks[..0] == [];
    for k := 0 to |chunks|
      invariant Leads(start, steps, s.(cache := AllCopied(s.cache, s.master, blocks, chunks[..k])))
      invariant forall i :: 0 <= i < |steps| ==> KeepsSize(steps[i], |s.cache.content|)
    {
      steps := CopyNext(s, start, steps, blocks, chunks, k);
    }
    assert chunks[..|chunks|] == chunks;
  }

  lemma ChunkMarked(chunks: seq<Interval>, blocks: set<int>, marked: set<int>, k: nat)
    requires k < |chunks| && Cover(chunks) - blocks <= marked
    ensures Range(chunks[k].start, chunks[k].end) - blocks <= marked && chunks[..k + 1] == chunks[..k] + [chunks[k]]
  {
    NodeInCover(chunks, k);
  }

  lemma CopyNext(s: State, start: State, steps0: seq<Step>, blocks: set<int>, chunks: seq<Interval>, k: nat)
    returns (steps: seq<Step>)
    requires |s.cache.content| == |s.master.content| && InBounds(chunks, |s.cache.content|) && MayRead(s.cache, s.master)
    requires blocks !! s.cache.modified && Cover(chunks) - blocks <= s.cache.updated + s.cache.modified
    requires EqualMarked(s, chunks) && k < |chunks|
    requires Leads(start, steps0, s.(cache := AllCopied(s.cache, s.master, blocks, chunks[..k])))
    requires forall i :: 0 <= i < |steps0| ==> KeepsSize(steps0[i], |s.cache.content|)
    ensures Leads(start, steps, s.(cache := AllCopied(s.cache, s.master, blocks, chunks[..k + 1])))
    ensures forall i :: 0 <= i < |steps| ==> KeepsSize(steps[i], |s.cache.content|)
  {
    ChunkMarked(chunks, blocks, s.cache.updated + s.cache.modified, k);
    steps := CopyLast(s, start, steps0, blocks, chunks[..k], chunks[k], chunks[..k + 1]);
  }

  lemma CopyLast(s: State, start: State, steps0: seq<Step>, blocks: set<int>, front: seq<Interval>, last: Interval,
                 chunks: seq<Interval>) returns (steps: seq<Step>)
    requires |s.cache.content| == |s.master.content| && InBounds(front, |s.cache.content|) && chunks == front + [last]
    requires last.start <= last.end <= |s.cache.content| && MayRead(s.cache, s.master) && blocks !! s.cache.modified
    requires Range(last.start, last.end) - blocks <= s.cache.updated + s.cache.modified
    requires SameOn(s.cache.content, s.master.content, last) ==> Range(last.start, last.end) <= s.cache.updated
    requires Leads(start, steps0, s.(cache := AllCopied(s.cache, s.master, blocks, front)))
    requires forall i :: 0 <= i < |steps0| ==> KeepsSize(steps0[i], |s.cache.content|)
    ensures Leads(start, steps, s.(cache := AllCopied(s.cache, s.master, blocks, chunks)))
    ensures forall i :: 0 <= i < |steps| ==> KeepsSize(steps[i], |s.cache.content|)
  {
    if SameOn(s.cache.content, s.master.content, last) {
      CopyOfEqual(s, blocks, front, last);
      steps := steps0;
    } else {
      var u := s.(cache := AllCopied(s.cache, s.master, blocks, front));
      var t := s.(cache := AllCopied(s.cache, s.master, blocks, chunks));
      CopyOneMore(s, blocks, front, last);
      LeadsOn(start, steps0, u, Copy(last, blocks), t);
      steps := steps0 + [Copy(last, blocks)];
    }
  }

  /** The chunks that are the same on both sides are marked updated. */
  ghost predicate EqualMarked(s: State, chunks: seq<Interval>)
    requires |s.cache.content| == |s.master.content| && InBounds(chunks, |s.cache.content|)
  {
    forall i :: 0 <= i < |chunks| && SameOn(s.cache.content, s.master.content, chunks[i]) ==>
      Range(chunks[i].start, chunks[i].end) <= s.cache.updated
  }

  lemma NothingCopied(s: State, blocks: set<int>)
    ensures s.(cache := AllCopied(s.cache, s.master, blocks, [])) == s
  {
    assert Cover([]) == {};
    assert Overlay(s.cache.content, s.master.content, {} * blocks) == s.cache.content;
  }

  lemma CopyOfEqual(s: State, blocks: set<int>, front: seq<Interval>, last: Interval)
    requires |s.cache.content| == |s.master.content| && last.end <= |s.cache.content|
    requires SameOn(s.cache.content, s.master.content, last) && Range(last.start, last.end) <= s.cache.updated
    ensures AllCopied(s.cache, s.master, blocks, front + [last]) == AllCopied(s.cache, s.master, blocks, front)
  {
    CoverSnoc(front, last);
    var u, t := AllCopied(s.cache, s.master, blocks, front), AllCopied(s.cache, s.master, blocks, front + [last]);
    assert u.content == t.content;
    assert u.updated == t.updated;
  }

  lemma CopyOneMore(s: State, blocks: set<int>, front: seq<Interval>, last: Interval)
    requires |s.cache.content| == |s.master.content| && InBounds(front + [last], |s.cache.content|)
    requires MayRead(s.cache, s.master) && blocks !! s.cache.modified && InBounds(front, |s.cache.content|)
    requires Range(last.start, last.end) - blocks <= s.cache.updated + s.cache.modified
    ensures var u := s.(cache := AllCopied(s.cache, s.master, blocks, front));
            var t := s.(cache := AllCopied(s.cache, s.master, blocks, front + [last]));
            StepsTo(u, Copy(last, blocks), t)
  {
    CoverSnoc(front, last);
    var u := s.(cache := AllCopied(s.cache, s.master, blocks, front));
    var t := s.(cache := AllCopied(s.cache, s.master, blocks, front + [last]));
    assert (front + [last])[|front|] == last;
    assert t.cache.content == Overlay(u.cache.content, s.master.content, Range(last.start, last.end) * blocks);
    assert t.cache.updated == u.cache.updated + Range(last.start, last.end);
  }

  /** A batch is a run of enabled steps: a `Detect` if the master has moved, then `Confirm` and
      `Copy` steps, if the bytes of the chunks outside the blocks are marked when it begins. */
  lemma BatchIsRun(s: State, blocks: set<int>, chunks: seq<Interval>) returns (steps: seq<Step>)
    requires |s.cache.content| == |s.master.content| && InBounds(chunks, |s.cache.content|)
    requires blocks !! s.cache.modified
    requires var d := Ready(s.cache, s.master); Cover(chunks) - blocks <= d.updated + d.modified
    ensures Leads(s, steps, s.(cache := Batched(s.cache, s.master, blocks, chunks)))
    ensures forall i :: 0 <= i < |steps| ==> KeepsSize(steps[i], |s.cache.content|)
  {
    var d, m := Ready(s.cache, s.master), s.master;
    var ready := s.(cache := d);
    steps := [];
    if !MayRead(s.cache, m) {
      assert StepsTo(s, Detect, ready);
      LeadsOn(s, [], s, Detect, ready);
      steps := [Detect];
    } else {
      assert ready == s;
    }
    steps := ConfirmRun(ready, s, steps, chunks);
    var sure := s.(cache := AllConfirmed(d, m, chunks));
    EqualConfirmed(ready, sure, chunks);
    steps := CopyRun(sure, s, steps, blocks, chunks);
    ConfirmedAndCopied(s.cache, m, blocks, chunks);
  }

  lemma EqualConfirmed(s: State, t: State, chunks: seq<Interval>)
    requires |s.cache.content| == |s.master.content| && InBounds(chunks, |s.cache.content|)
    requires t == s.(cache := AllConfirmed(s.cache, s.master, chunks))
    ensures EqualMarked(t, chunks)
  {
    forall i | 0 <= i < |chunks| && SameOn(t.cache.content, t.master.content, chunks[i])
      ensures Range(chunks[i].start, chunks[i].end) <= t.cache.updated
    {
      EqualIncluded(s.cache.content, s.master.content, chunks, i);
    }
  }

  lemma ConfirmedAndCopied(c: Cache, m: Master, blocks: set<int>, chunks: seq<Interval>)
    requires |c.content| == |m.content| && InBounds(chunks, |c.content|)
    ensures AllCopied(AllConfirmed(Ready(c, m), m, chunks), m, blocks, chunks) == Batched(c, m, blocks, chunks)
  {
    var d := Ready(c, m);
    EqualBytesCovered(d.content, m.content, chunks);
    assert d.updated + EqualBytes(d.content, m.content, chunks) + Cover(chunks) == d.updated + Cover(chunks);
  }

  /** Blocks that an update selected: what is neither updated nor modified, and nothing modified. */
  ghost predicate Selected(c: Cache, blocks: set<int>) {
    Range(0, |c.content|) - c.updated - c.modified <= blocks && blocks !! c.modified
  }

  /** So a batch on selected blocks is a run of steps when the master is where it was, and in
      every case when no chunk leaves the blocks; then it keeps the invariant. */
  lemma SelectedBatchKeepsInv(s: State, blocks: set<int>, chunks: seq<Interval>)
    requires Inv(s) && InBounds(chunks, |s.cache.content|) && Selected(s.cache, blocks)
    requires MayRead(s.cache, s.master) || Cover(chunks) <= blocks
    ensures Inv(s.(cache := Batched(s.cache, s.master, blocks, chunks)))
  {
    forall o | o in Cover(chunks) ensures o in Range(0, |s.cache.content|) {
      var i := NodeOf(chunks, o);
    }
    var steps := BatchIsRun(s, blocks, chunks);
    LeadsKeepsInv(s, steps, s.(cache := Batched(s.cache, s.master, blocks, chunks)));
  }

  // ----- where the code falls short of the steps -----

  /** States that differ in their contents only. */
  ghost predicate Alike(s: State, t: State) {
    && t.cache == s.cache.(content := t.cache.content) && |t.cache.content| == |s.cache.content|
    && t.master == s.master.(content := t.master.content)
  }

  /** When a batch finds that the master has moved, it clears the marks but goes on with the
      blocks selected before.  It leaves the file coherent, whatever both sides hold, exactly
      when no chunk was joined over bytes outside the blocks. */
  lemma ClearingBatchSafeExactly(s: State, blocks: set<int>, chunks: seq<Interval>)
    requires Inv(s) && !MayRead(s.cache, s.master) && InBounds(chunks, |s.cache.content|)
    ensures (forall t: State | Inv(t) && Alike(s, t) :: Coherent(t.(cache := Batched(t.cache, t.master, blocks, chunks))))
            <==> Cover(chunks) <= blocks
  {
    if Cover(chunks) <= blocks {
      forall t: State | Inv(t) && Alike(s, t) ensures Coherent(t.(cache := Batched(t.cache, t.master, blocks, chunks))) {
        ClearingBatchSafe(t, blocks, chunks);
      }
    } else {
      var o :| o in Cover(chunks) && o !in blocks;
      var t := ClearingBatchStale(s, blocks, chunks, o);
      assert Inv(t) && Alike(s, t);
    }
  }

  lemma ClearingBatchSafe(t: State, blocks: set<int>, chunks: seq<Interval>)
    requires Inv(t) && !MayRead(t.cache, t.master) && InBounds(chunks, |t.cache.content|) && Cover(chunks) <= blocks
    ensures Coherent(t.(cache := Batched(t.cache, t.master, blocks, chunks)))
  {
    var u := t.(cache := Batched(t.cache, t.master, blocks, chunks));
    assert t.cache.modified == {};
    forall o | o in u.cache.updated && o !in u.cache.modified ensures HoldsMasterByte(u, o) {
      var i := NodeOf(chunks, o);
    }
  }

  /** A byte of a chunk outside the blocks is left as it was, and marked. */
  lemma ClearingBatchStale(s: State, blocks: set<int>, chunks: seq<Interval>, o: int) returns (t: State)
    requires Inv(s) && !MayRead(s.cache, s.master) && InBounds(chunks, |s.cache.content|)
    requires o in Cover(chunks) && o !in blocks
    ensures Inv(t) && Alike(s, t) && !Coherent(t.(cache := Batched(t.cache, t.master, blocks, chunks)))
  {
    var i := NodeOf(chunks, o);
    var other: Byte := if s.cache.content[o] == 0 then 1 else 0;
    var content := s.cache.content[o := other];
    t := State(s.cache, Master(content, s.master.version), s.history[s.master.version := content]);
    forall x | x in t.cache.updated && x !in t.cache.modified ensures HoldsMasterByte(t, x) {
      assert HoldsMasterByte(s, x);
    }
    var u := t.(cache := Batched(t.cache, t.master, blocks, chunks));
    assert o in u.cache.updated && o !in u.cache.modified && !HoldsMasterByte(u, o);
  }

  /** Three bytes, the middle one fetched before another node writes: the next batch joins its
      chunk over that byte, and the file ends updated everywhere, in sync, and wrong. */
  lemma MovedMasterLeavesStale() returns (states: seq<State>, steps: seq<Step>, blocks: set<int>, chunks: seq<Interval>)
    ensures SizedRun(states, steps) && |steps| == 2 && !MayRead(states[2].cache, states[2].master)
    ensures Selected(states[1].cache, blocks) && InBounds(chunks, 3) && |states[2].cache.content| == |states[2].master.content| == 3
    ensures var c, m := Batched(states[2].cache, states[2].master, blocks, chunks), states[2].master;
            && c.updated == Range(0, 3) && c.modified == {} && InSync(c, m.version) && c.content != m.content
  {
    var m := Master([9, 1, 9], 5);
    var s := State(Cache([0, 1, 0], 5, 5, false, {}, {}), m, map[5 := m.content]);
    steps := [Confirm(Interval(1, 2)), MasterWrite([1, 2, 1])];
    var t := Apply(s, steps[0]);
    var u := Apply(t, steps[1]);
    states := [s, t, u];
    blocks, chunks := {0, 2}, [Interval(0, 3)];
    assert Range(0, 3) == {0, 1, 2} && Range(1, 2) == {1};
    CoverOne(chunks[0]);
    var c := Batched(u.cache, u.master, blocks, chunks);
    assert c.content[1] != u.master.content[1];
  }

  /** The first block that does not end before the chunk contains it. */
  ghost predicate InFirstBlock(chunk: Interval, blocks: seq<Interval>) {
    exists k :: 0 <= k < |blocks| && (forall l :: 0 <= l < k ==> blocks[l].end < chunk.start)
                && blocks[k].start <= chunk.start && chunk.end <= blocks[k].end
  }

  /** The splice the source performs on a chunk that differs: the whole chunk when the block at
      which the scan stops contains it; otherwise the loop that should copy the overlapping
      blocks is skipped, because its guard repeats the one the scan has just ended on. */
  ghost function SpliceAsWritten(mine: seq<Byte>, theirs: seq<Byte>, chunk: Interval, blocks: seq<Interval>): seq<Byte> {
    if InFirstBlock(chunk, blocks) then Overlay(mine, theirs, Range(chunk.start, chunk.end)) else mine
  }

  /** The splice copies what a `Copy` step copies, whatever the two files hold, exactly
      when that block contains the chunk or no block touches it. */
  lemma SpliceRightExactly(n: nat, chunk: Interval, blocks: seq<Interval>)
    requires chunk.start <= chunk.end <= n
    ensures (forall mine: seq<Byte>, theirs: seq<Byte> | |mine| == n && |theirs| == n ::
               SpliceAsWritten(mine, theirs, chunk, blocks)
               == Overlay(mine, theirs, Range(chunk.start, chunk.end) * Cover(blocks)))
            <==> InFirstBlock(chunk, blocks) || Range(chunk.start, chunk.end) !! Cover(blocks)
  {
    var range := Range(chunk.start, chunk.end);
    if InFirstBlock(chunk, blocks) {
      var k :| 0 <= k < |blocks| && blocks[k].start <= chunk.start && chunk.end <= blocks[k].end;
      NodeInCover(blocks, k);
      assert range * Cover(blocks) == range;
    } else if o :| o in range && o in Cover(blocks) {
      var mine: seq<Byte> := seq(n, _ => 0);
      var theirs: seq<Byte> := seq(n, _ => 1);
      assert Overlay(mine, theirs, range * Cover(blocks))[o] != SpliceAsWritten(mine, theirs, chunk, blocks)[o];
    } else {
      assert range * Cover(blocks) == {};
    }
  }

  /** Among merged blocks the scan finds the block that contains the chunk, if there is one. */
  lemma FirstBlockOfMerged(chunk: Interval, blocks: seq<Interval>)
    requires Canonical(blocks) && chunk.start < chunk.end
    ensures InFirstBlock(chunk, blocks) <==>
              exists k :: 0 <= k < |blocks| && blocks[k].start <= chunk.start && chunk.end <= blocks[k].end
  {
  }

  /** Two blocks a short gap apart: after the splice as written the chunk counts as
      updated, and the file as complete and in sync, with the old bytes still in it. */
  lemma SplicedFileIsWrong() returns (c: Cache, m: Master, chunk: Interval, blocks: seq<Interval>)
    ensures |c.content| == |m.content| && chunk.end <= |c.content|
    ensures Inv(State(c, m, map[m.version := m.content]))
    ensures Enabled(State(c, m, map[m.version := m.content]), Copy(chunk, Cover(blocks)))
    ensures var after := Copied(c, m, chunk, Cover(blocks))
                           .(content := SpliceAsWritten(c.content, m.content, chunk, blocks));
            && Range(0, |c.content|) <= after.updated && InSync(after, m.version)
            && after.content != m.content
  {
    c := Cache([0, 1, 0], 5, 5, false, {1}, {});
    m := Master([1, 1, 1], 5);
    chunk, blocks := Interval(0, 3), [Interval(0, 1), Interval(2, 3)];
    HitCovered(blocks, 0, 0);
    HitCovered(blocks, 1, 2);
    assert 1 !in Cover(blocks);
    assert Range(0, 3) == {0, 1, 2};
    assert c.content[0] != m.content[0];
  }

  /** A single `Copy` step is safe for every content the cache may have exactly when the bytes
      of the chunk outside the blocks are still marked. */
  lemma CopySafeExactly(s: State, chunk: Interval, blocks: set<int>)
    requires Inv(s) && s.master.version == s.cache.masterVersion
    requires chunk.start <= chunk.end <= |s.cache.content| && blocks !! s.cache.modified
    ensures (forall t: State | Inv(t) && SameButContent(s, t) ::
               Coherent(t.(cache := Copied(t.cache, t.master, chunk, blocks))))
            <==> Range(chunk.start, chunk.end) - blocks <= s.cache.updated + s.cache.modified
  {
    var c, m, range := s.cache, s.master, Range(chunk.start, chunk.end);
    if range - blocks <= c.updated + c.modified {
      forall t: State | Inv(t) && SameButContent(s, t)
        ensures Coherent(t.(cache := Copied(t.cache, t.master, chunk, blocks)))
      {
        assert EnabledAt(t, Copy(chunk, blocks));
        StepKeepsCoherence(t, Copy(chunk, blocks));
      }
    } else {
      var o :| o in range - blocks && o !in c.updated + c.modified;
      var other: Byte := if m.content[o] == 0 then 1 else 0;
      var t := s.(cache := c.(content := c.content[o := other]));
      CopyLeavesStale(s, t, chunk, blocks, o);
    }
  }

  ghost predicate SameButContent(s: State, t: State) {
    t == s.(cache := s.cache.(content := t.cache.content))
  }

  lemma CopyLeavesStale(s: State, t: State, chunk: Interval, blocks: set<int>, o: int)
    requires Inv(s) && s.master.version == s.cache.masterVersion
    requires chunk.start <= chunk.end <= |s.cache.content|
    requires o in Range(chunk.start, chunk.end) - blocks && o !in s.cache.updated + s.cache.modified
    requires SameButContent(s, t) && |t.cache.content| == |s.cache.content|
    requires forall i :: 0 <= i < |s.cache.content| && i != o ==> t.cache.content[i] == s.cache.content[i]
    requires t.cache.content[o] != s.master.content[o]
    ensures Inv(t) && !Coherent(t.(cache := Copied(t.cache, t.master, chunk, blocks)))
  {
    forall i | i in t.cache.updated && i !in t.cache.modified ensures HoldsMasterByte(t, i) {
      assert HoldsMasterByte(s, i);
    }
    var after := t.(cache := Copied(t.cache, t.master, chunk, blocks));
    assert o in after.cache.updated && o !in after.cache.modified;
    assert !HoldsMasterByte(after, o);
  }
}
