/** What a replay of the whole journal makes of the two listings. */
module Reintegration {
  import opened Options
  import opened Journal

  // ----- every replay -----

  /** A replay of the entries `before` has turned `v0` into `v`: a name is lost here only where
      it was to be added, the master loses a name only where it was to be deleted, or with a
      folder that was to be added elsewhere, and gains one only where it was to be added. */
  ghost predicate Frames(v0: Sides, before: seq<Entry>, v: Sides) {
    && (forall n :: n in v.local ==> n in v0.local && v.local[n] == v0.local[n])
    && (forall n :: n in v0.local && n !in v.local ==> AddPending(before, n))
    && (forall n :: n in v0.remote ==>
          || (n in v.remote && v.remote[n] == v0.remote[n])
          || DelNamed(before, n, v0.remote[n])
          || (RemoteFolder(v0, v0.remote[n]) && AddNamed(before, v0.remote[n])))
    && (forall n :: n in v.remote ==> (n in v0.remote && v.remote[n] == v0.remote[n]) || AddPending(before, n))
    && (forall f :: f in v.files ==> f in v0.files && v.files[f].kind == v0.files[f].kind)
    && (forall f :: f in v.files && v0.files[f].master.Some? ==> v.files[f] == v0.files[f])
    && (forall h :: h in v.attrs && h < v0.nextHandle ==> h in v0.attrs && v.attrs[h] == v0.attrs[h])
    && v.nextFile == v0.nextFile && v0.nextHandle <= v.nextHandle
  }

  /** The deletion of `n`, which stood for `h`, is among the entries. */
  ghost predicate DelNamed(journal: seq<Entry>, n: Name, h: Handle) {
    exists e :: e in journal && !e.add && e.name == n && e.master == Some(h)
  }

  ghost predicate AddNamed(journal: seq<Entry>, h: Handle) {
    exists e :: e in journal && e.add && e.master == Some(h)
  }

  lemma NamedMore(before: seq<Entry>, e: Entry)
    ensures forall n :: AddPending(before, n) ==> AddPending(before + [e], n)
    ensures forall n, h: Handle :: DelNamed(before, n, h) ==> DelNamed(before + [e], n, h)
    ensures forall h: Handle :: AddNamed(before, h) ==> AddNamed(before + [e], h)
    ensures e.add ==> AddPending(before + [e], e.name)
    ensures e.add && e.master.Some? ==> AddNamed(before + [e], e.master.value)
    ensures !e.add && e.master.Some? ==> DelNamed(before + [e], e.name, e.master.value)
  {
    var more := before + [e];
    assert e in more;
    forall n | AddPending(before, n) ensures AddPending(more, n) {
      var x :| x in before && x.add && x.name == n;
      assert x in more;
    }
    forall n, h: Handle | DelNamed(before, n, h) ensures DelNamed(more, n, h) {
      var x :| x in before && !x.add && x.name == n && x.master == Some(h);
      assert x in more;
    }
    forall h: Handle | AddNamed(before, h) ensures AddNamed(more, h) {
      var x :| x in before && x.add && x.master == Some(h);
      assert x in more;
    }
  }

  lemma DelSentFrames(v: Sides, e: Entry, w: Sides)
    requires Sound(v) && !e.add && DelFits(v, e) && DelSentTo(v, e, w)
    ensures Frames(v, [e], w)
  {
    assert e in [e] && DelNamed([e], e.name, v.remote[e.name]);
  }

  lemma CreatedFrames(v: Sides, e: Entry)
    requires Sound(v) && e.add && e.name in v.local && e.name !in v.remote && v.files[v.local[e.name]].master == None
    ensures Frames(v, [e], Created(v, e.name))
  {
    assert e in [e] && AddPending([e], e.name);
  }

  lemma MovedFrames(v: Sides, e: Entry, h: Handle)
    requires Sound(v) && e.add && e.name !in v.remote && e.master == Some(h) && h in v.attrs
    ensures Frames(v, [e], Moved(v, e.name, h))
  {
    assert e in [e] && AddPending([e], e.name) && AddNamed([e], h);
    var w := Moved(v, e.name, h);
    forall n | n in v.remote && !(n in w.remote && w.remote[n] == v.remote[n])
      ensures RemoteFolder(v, v.remote[n]) && AddNamed([e], v.remote[n])
    {
      assert v.remote[n] == h;
    }
  }

  lemma UnnamedFrames(v: Sides, e: Entry, w: Sides)
    requires Sound(v) && e.add && e.name in v.local && UnnamedTo(v, e.name, w)
    ensures Frames(v, [e], w)
  {
    assert e in [e] && AddPending([e], e.name);
  }

  /** What one entry changes, and what it leaves alone. */
  lemma StepFrames(v: Sides, e: Entry, w: Sides)
    requires Sound(v) && Replayed(v, e, w)
    ensures Frames(v, [e], w)
  {
    if w != v {
      if !e.add {
        DelSentFrames(v, e, w);
      } else if v.files[v.local[e.name]].master == None {
        CreatedFrames(v, e);
      } else if Drops(v, e) {
        UnnamedFrames(v, e, w);
      } else {
        MovedFrames(v, e, e.master.value);
      }
    }
  }

  lemma FramesMore(v0: Sides, before: seq<Entry>, v: Sides, e: Entry, w: Sides)
    requires Frames(v0, before, v) && Frames(v, [e], w) && Sound(v0) && Sound(v)
    ensures Frames(v0, before + [e], w)
  {
    NamedMore(before, e);
    var more := before + [e];
    forall n | AddPending([e], n) ensures AddPending(more, n) {
      assert e.add && e.name == n;
    }
    forall n | n in v0.remote && !(n in w.remote && w.remote[n] == v0.remote[n])
      ensures DelNamed(more, n, v0.remote[n]) || (RemoteFolder(v0, v0.remote[n]) && AddNamed(more, v0.remote[n]))
    {
      if n in v.remote && v.remote[n] == v0.remote[n] {
        if DelNamed([e], n, v.remote[n]) {
          assert !e.add && e.name == n && e.master == Some(v0.remote[n]);
        } else {
          assert AddNamed([e], v.remote[n]) && RemoteFolder(v, v.remote[n]);
          assert e.add && e.master == Some(v0.remote[n]);
        }
      }
    }
  }

  // ----- conflicts -----

  /** A kept addition is in conflict; a kept deletion is in conflict, unless the name was added
      again for the very file that the master has. */
  ghost predicate Noted(v: Sides, conflicts: set<Name>, e: Entry) {
    if e.add then e.name in conflicts
    else
      && e.name in v.remote && v.remote[e.name] in v.attrs && v.attrs[v.remote[e.name]].kind == Regular
      && (e.name in conflicts || AgreeAt(v, e.name))
  }

  /** Whether the name of an entry is in conflict after the entry was replayed: an addition that
      finds its file on the master keeps a conflict only if both sides changed the data. */
  ghost predicate Disputed(v: Sides, e: Entry, before: bool)
    requires Sound(v)
  {
    if !e.add then DelFits(v, e) && (Contested(v, e) || before)
    else if e.name !in v.local then before
    else if e.name !in v.remote then false
    else if !AgreeAt(v, e.name) then true
    else
      var meta, attr := v.files[v.local[e.name]], v.attrs[v.remote[e.name]];
      before && meta.kind == Regular && meta.localVersion != meta.masterVersion && attr.version != meta.masterVersion
  }

  /** How replaying an entry changes the conflicts. */
  ghost predicate ConflictsAfter(v: Sides, e: Entry, before: set<Name>, after: set<Name>)
    requires Sound(v)
  {
    && (forall n :: n != e.name ==> (n in after <==> n in before))
    && (e.name in after <==> Disputed(v, e, e.name in before))
  }

  lemma NotedMore(v: Sides, x: Entry, e: Entry, w: Sides, before: set<Name>, after: set<Name>)
    requires Sound(v) && Replayed(v, e, w) && Noted(v, before, x) && ConflictsAfter(v, e, before, after)
    requires x.name == e.name ==> !x.add && e.add
    ensures Noted(w, after, x)
  {
    if !x.add && w != v {
      if !e.add {
        assert (v.remote - {e.name})[x.name] in (v.remote - {e.name}).Values;
      } else if Drops(v, e) && x.name in v.local {
        assert (v.local - {e.name})[x.name] in (v.local - {e.name}).Values;
      }
    }
  }

  // ----- one entry of the replay -----

  /** The entry at `p` of what is left is entry `i` of the whole. */
  lemma EntryFrames(v0: Sides, j0: seq<Entry>, i: nat, v: Sides, j: seq<Entry>, p: nat, w: Sides)
    requires Sound(v0) && Sound(v) && p < |j| && i < |j0| && j[p..] == j0[i..]
    requires Frames(v0, j0[..i], v) && Replayed(v, j[p], w)
    ensures Frames(v0, j0[..i + 1], w)
    ensures j[p + 1..] == j0[i + 1..] == RemoveAt(j, p)[p..] && RemoveAt(j, p)[..p] == j[..p]
  {
    assert j[p] == j[p..][0] == j0[i];
    assert j0[..i + 1] == j0[..i] + [j0[i]];
    StepFrames(v, j[p], w);
    FramesMore(v0, j0[..i], v, j[p], w);
    assert j[p + 1..] == j[p..][1..] == j0[i..][1..] == j0[i + 1..];
  }

  /** The entries kept so far, and this one if a conflict keeps it, are noted. */
  lemma EntryNoted(v: Sides, j: seq<Entry>, p: nat, w: Sides, before: set<Name>, after: set<Name>)
    requires Sound(v) && Optimised(j) && p < |j| && Replayed(v, j[p], w) && ConflictsAfter(v, j[p], before, after)
    requires forall e :: e in j[..p] ==> Noted(v, before, e)
    ensures forall e :: e in j[..p] ==> Noted(w, after, e)
    ensures Contested(v, j[p]) || Doubled(v, j[p]) ==> forall e :: e in j[..p + 1] ==> Noted(w, after, e)
  {
    forall e | e in j[..p] ensures Noted(w, after, e) {
      var q :| 0 <= q < p && j[q] == e;
      NotedMore(v, e, j[p], w, before, after);
    }
    assert j[..p + 1] == j[..p] + [j[p]];
  }

  // ----- a replay of a journal that explains the difference -----

  /** One of the first `i` entries adds file `f` under a name that is not stuck. */
  ghost predicate Earlier(j0: seq<Entry>, i: nat, f: FileId, stuck: set<Name>) {
    exists k :: 0 <= k < i && k < |j0| && j0[k].add && j0[k].file == f && j0[k].name !in stuck
  }

  /** Entry `i` makes its name be dropped: its handle does not exist on the master, or it has
      none although the file has one, or gets one from an earlier entry. */
  ghost predicate Droppable(v0: Sides, j0: seq<Entry>, i: nat, stuck: set<Name>) {
    && i < |j0| && j0[i].add && j0[i].name !in stuck
    && match j0[i].master
       case Some(h) => h !in v0.attrs
       case None => (j0[i].file in v0.files && v0.files[j0[i].file].master.Some?) || Earlier(j0, i, j0[i].file, stuck)
  }

  ghost predicate DroppedBy(v0: Sides, j0: seq<Entry>, i: nat, stuck: set<Name>, n: Name) {
    exists k :: 0 <= k < i && Droppable(v0, j0, k, stuck) && j0[k].name == n
  }

  /** The deletion of `n` was refused because its file changed on the master. */
  ghost predicate Refused(v0: Sides, j0: seq<Entry>, i: nat, v: Sides, n: Name) {
    exists k :: 0 <= k < i && k < |j0| && !j0[k].add && j0[k].name == n && Changed(v0, j0[k]) && j0[k].file !in v.files
  }

  ghost predicate Changed(v: Sides, e: Entry) {
    && DelFits(v, e) && v.remote[e.name] in v.attrs
    && v.attrs[v.remote[e.name]].kind == Regular && v.attrs[v.remote[e.name]].version != e.masterVersion
  }

  ghost predicate LocalTracked(v0: Sides, j0: seq<Entry>, i: nat, v: Sides, stuck: set<Name>) {
    && (forall n :: n in v.local <==> n in v0.local && !DroppedBy(v0, j0, i, stuck, n))
    && (forall n :: n in v.local ==> v.local[n] == v0.local[n])
  }

  ghost predicate FilesTracked(v0: Sides, j0: seq<Entry>, i: nat, v: Sides, stuck: set<Name>) {
    forall f :: f in v.files ==>
      && f in v0.files
      && (v0.files[f].master.Some? ==> v.files[f] == v0.files[f])
      && (v.files[f].master.Some? <==> v0.files[f].master.Some? || Earlier(j0, i, f, stuck))
  }

  /** What the entries from `i` on depend on is as it was. */
  ghost predicate RestTracked(v0: Sides, j0: seq<Entry>, i: nat, v: Sides) {
    && (forall k :: i <= k < |j0| && j0[k].add && j0[k].master.Some? ==>
          (j0[k].master.value in v.attrs <==> j0[k].master.value in v0.attrs))
    && (forall k :: i <= k < |j0| && !j0[k].add ==> SameAt(v0, v, j0[k].name))
  }

  ghost predicate SameAt(v0: Sides, v: Sides, n: Name) {
    && n in v0.remote && n in v.remote && v.remote[n] == v0.remote[n]
    && v.remote[n] in v.attrs && v.remote[n] in v0.attrs && v.attrs[v.remote[n]] == v0.attrs[v.remote[n]]
  }

  /** The stuck names are those of the refused deletions, and the master has them as before. */
  ghost predicate StuckTracked(v0: Sides, j0: seq<Entry>, i: nat, v: Sides, stuck: set<Name>) {
    && (forall n :: n in stuck ==> SameAt(v0, v, n) && Refused(v0, j0, i, v, n))
    && (forall k :: 0 <= k < i && k < |j0| && Contested(v0, j0[k]) ==> j0[k].name in stuck)
  }

  ghost predicate Tracks(v0: Sides, j0: seq<Entry>, i: nat, v: Sides, stuck: set<Name>) {
    && LocalTracked(v0, j0, i, v, stuck) && FilesTracked(v0, j0, i, v, stuck)
    && RestTracked(v0, j0, i, v) && StuckTracked(v0, j0, i, v, stuck)
  }

  lemma EarlierMore(j0: seq<Entry>, i: nat, f: FileId, stuck: set<Name>)
    requires i < |j0|
    ensures Earlier(j0, i + 1, f, stuck) <==>
              Earlier(j0, i, f, stuck) || (j0[i].add && j0[i].file == f && j0[i].name !in stuck)
  {
  }

  lemma DroppedMore(v0: Sides, j0: seq<Entry>, i: nat, stuck: set<Name>, n: Name)
    requires i < |j0|
    ensures DroppedBy(v0, j0, i + 1, stuck, n) <==>
              DroppedBy(v0, j0, i, stuck, n) || (Droppable(v0, j0, i, stuck) && j0[i].name == n)
  {
  }

  /** A name that becomes stuck was not added before. */
  lemma StuckLater(v0: Sides, j0: seq<Entry>, i: nat, stuck: set<Name>)
    requires Optimised(j0) && i < |j0| && !j0[i].add
    ensures forall f: FileId :: Earlier(j0, i, f, stuck + {j0[i].name}) <==> Earlier(j0, i, f, stuck)
    ensures forall n :: DroppedBy(v0, j0, i, stuck + {j0[i].name}, n) <==> DroppedBy(v0, j0, i, stuck, n)
  {
    var more := stuck + {j0[i].name};
    forall k | 0 <= k < i ensures Droppable(v0, j0, k, more) <==> Droppable(v0, j0, k, stuck) {
      if j0[k].add {
        assert j0[k].name != j0[i].name;
        assert forall l :: 0 <= l < k && j0[l].add ==> j0[l].name != j0[i].name;
        assert Earlier(j0, k, j0[k].file, more) <==> Earlier(j0, k, j0[k].file, stuck);
      }
    }
    forall f: FileId ensures Earlier(j0, i, f, more) <==> Earlier(j0, i, f, stuck) {
      assert forall l :: 0 <= l < i && j0[l].add ==> j0[l].name != j0[i].name;
    }
  }

  /** The local names after one more entry. */
  lemma TrackLocal(v0: Sides, j0: seq<Entry>, i: nat, v: Sides, stuck: set<Name>, w: Sides)
    requires LocalTracked(v0, j0, i, v, stuck) && i < |j0|
    requires w.local == if Droppable(v0, j0, i, stuck) then v.local - {j0[i].name} else v.local
    ensures LocalTracked(v0, j0, i + 1, w, stuck)
  {
    forall n ensures n in w.local <==> n in v0.local && !DroppedBy(v0, j0, i + 1, stuck, n) {
      DroppedMore(v0, j0, i, stuck, n);
    }
  }

  /** Entry `i` gives its file a handle, if it is an addition and not stuck. */
  ghost predicate Gives(j0: seq<Entry>, i: nat, f: FileId, stuck: set<Name>) {
    i < |j0| && j0[i].add && j0[i].file == f && j0[i].name !in stuck
  }

  /** The files after one more entry. */
  lemma TrackFiles(v0: Sides, j0: seq<Entry>, i: nat, v: Sides, stuck: set<Name>, w: Sides)
    requires FilesTracked(v0, j0, i, v, stuck) && i < |j0|
    requires forall f :: f in w.files ==> f in v.files && (w.files[f] == v.files[f] || v.files[f].master == None)
    requires forall f :: f in w.files ==> (w.files[f].master.Some? <==> v.files[f].master.Some? || Gives(j0, i, f, stuck))
    ensures FilesTracked(v0, j0, i + 1, w, stuck)
  {
    forall f | f in w.files
      ensures f in v0.files && (v0.files[f].master.Some? ==> w.files[f] == v0.files[f])
      ensures w.files[f].master.Some? <==> v0.files[f].master.Some? || Earlier(j0, i + 1, f, stuck)
    {
      EarlierMore(j0, i, f, stuck);
    }
  }

  /** The stuck names after one more entry that makes none. */
  lemma TrackStuck(v0: Sides, j0: seq<Entry>, i: nat, v: Sides, stuck: set<Name>, w: Sides)
    requires StuckTracked(v0, j0, i, v, stuck) && i < |j0|
    requires forall f :: f in w.files ==> f in v.files
    requires forall n :: n in stuck ==> SameAt(v0, w, n)
    requires !Contested(v0, j0[i])
    ensures StuckTracked(v0, j0, i + 1, w, stuck)
  {
    forall n | n in stuck ensures Refused(v0, j0, i + 1, w, n) {
      assert Refused(v0, j0, i, v, n);
    }
  }

  /** A refused deletion stays, and its name is stuck. */
  lemma TrackRefused(v0: Sides, j0: seq<Entry>, i: nat, v: Sides, stuck: set<Name>)
    requires Tracks(v0, j0, i, v, stuck) && Optimised(j0) && i < |j0| && Contested(v, j0[i])
    ensures Tracks(v0, j0, i + 1, v, stuck + {j0[i].name})
  {
    var more := stuck + {j0[i].name};
    StuckLater(v0, j0, i, stuck);
    forall n ensures DroppedBy(v0, j0, i + 1, more, n) <==> DroppedBy(v0, j0, i, stuck, n) {
      DroppedMore(v0, j0, i, more, n);
    }
    forall f: FileId ensures Earlier(j0, i + 1, f, more) <==> Earlier(j0, i, f, stuck) {
      EarlierMore(j0, i, f, more);
    }
    assert SameAt(v0, v, j0[i].name) && Changed(v0, j0[i]);
    forall n | n in more ensures Refused(v0, j0, i + 1, v, n) {
      if n in stuck {
        assert Refused(v0, j0, i, v, n);
      }
    }
  }

  /** An addition behind it stays too. */
  lemma TrackDoubled(v0: Sides, j0: seq<Entry>, i: nat, v: Sides, stuck: set<Name>)
    requires Tracks(v0, j0, i, v, stuck) && i < |j0| && j0[i].add && j0[i].name in stuck
    ensures Tracks(v0, j0, i + 1, v, stuck)
  {
    TrackLocal(v0, j0, i, v, stuck, v);
    TrackFiles(v0, j0, i, v, stuck, v);
    TrackStuck(v0, j0, i, v, stuck, v);
  }

  /** A deletion that is sent. */
  lemma TrackDelSent(v0: Sides, j0: seq<Entry>, i: nat, v: Sides, stuck: set<Name>, j: seq<Entry>, p: nat, w: Sides)
    requires Tracks(v0, j0, i, v, stuck) && Optimised(j0) && i < |j0|
    requires Explains(v, j) && p < |j| && j[p..] == j0[i..]
    requires !j0[i].add && j0[i].name !in stuck && DelFits(v, j0[i]) && !Contested(v, j0[i]) && DelSentTo(v, j0[i], w)
    ensures Tracks(v0, j0, i + 1, w, stuck)
  {
    var e := j0[i];
    forall m | m != e.name && SameAt(v0, v, m) ensures SameAt(v0, w, m) {
      assert w.remote[m] in (v.remote - {e.name}).Values;
    }
    assert SameAt(v0, v, e.name) && !Contested(v0, e);
    TrackLocal(v0, j0, i, v, stuck, w);
    TrackFiles(v0, j0, i, v, stuck, w);
    TrackStuck(v0, j0, i, v, stuck, w);
    forall k | i + 1 <= k < |j0| && j0[k].add && j0[k].master.Some?
      ensures j0[k].master.value in w.attrs <==> j0[k].master.value in v0.attrs
    {
      HandleKept(v, j, p, k - i + p, w);
    }
  }

  /** A deletion does not take a file from the master that is still to be added. */
  lemma HandleKept(v: Sides, j: seq<Entry>, p: nat, q: nat, w: Sides)
    requires Explains(v, j) && p < |j| && q < |j| && j[q].add && j[q].master.Some?
    requires !j[p].add && DelFits(v, j[p]) && DelSentTo(v, j[p], w)
    ensures j[q].master.value in w.attrs <==> j[q].master.value in v.attrs
  {
    assert j[p] in j && j[q] in j && EntryKnown(v, j[p]) && Accounts(v, j, j[q].name) && AddFits(v, j[q]);
  }

  /** An addition that creates the file on the master. */
  lemma TrackCreated(v0: Sides, j0: seq<Entry>, i: nat, v: Sides, stuck: set<Name>, j: seq<Entry>)
    requires Tracks(v0, j0, i, v, stuck) && i < |j0| && Explains(v, j)
    requires forall e :: e in j0[i..] ==> e in j
    requires j0[i].add && j0[i].name !in stuck && j0[i].name !in v.remote && AddFits(v, j0[i])
    requires v.files[j0[i].file].master == None
    ensures Tracks(v0, j0, i + 1, Created(v, j0[i].name), stuck)
  {
    var w := Created(v, j0[i].name);
    assert !Droppable(v0, j0, i, stuck);
    TrackLocal(v0, j0, i, v, stuck, w);
    TrackFiles(v0, j0, i, v, stuck, w);
    forall m | SameAt(v0, v, m) ensures SameAt(v0, w, m) {
    }
    TrackStuck(v0, j0, i, v, stuck, w);
    forall k | i + 1 <= k < |j0| && j0[k].add && j0[k].master.Some?
      ensures j0[k].master.value in w.attrs <==> j0[k].master.value in v0.attrs
    {
      assert j0[i..][k - i] == j0[k] && EntryKnown(v, j0[k]);
    }
  }

  /** An addition that names an existing file on the master. */
  lemma TrackMoved(v0: Sides, j0: seq<Entry>, i: nat, v: Sides, stuck: set<Name>, h: Handle)
    requires Tracks(v0, j0, i, v, stuck) && i < |j0|
    requires j0[i].add && j0[i].name !in stuck && j0[i].name !in v.remote && AddFits(v, j0[i])
    requires j0[i].master == Some(h) && h in v.attrs
    requires v.attrs[h].kind == Folder ==> h !in v.remote.Values
    ensures Tracks(v0, j0, i + 1, Moved(v, j0[i].name, h), stuck)
  {
    var w := Moved(v, j0[i].name, h);
    TrackLocal(v0, j0, i, v, stuck, w);
    TrackFiles(v0, j0, i, v, stuck, w);
    forall m | SameAt(v0, v, m) ensures SameAt(v0, w, m) {
      assert v.remote[m] in v.remote.Values;
    }
    TrackStuck(v0, j0, i, v, stuck, w);
  }

  /** An addition whose name is dropped. */
  lemma TrackDropped(v0: Sides, j0: seq<Entry>, i: nat, v: Sides, stuck: set<Name>, w: Sides)
    requires Tracks(v0, j0, i, v, stuck) && i < |j0|
    requires j0[i].name !in stuck && AddFits(v, j0[i]) && Drops(v, j0[i]) && UnnamedTo(v, j0[i].name, w)
    ensures Tracks(v0, j0, i + 1, w, stuck)
  {
    assert Droppable(v0, j0, i, stuck);
    TrackLocal(v0, j0, i, v, stuck, w);
    TrackFiles(v0, j0, i, v, stuck, w);
    TrackStuck(v0, j0, i, v, stuck, w);
  }

  // ----- one entry, and the whole -----

  /** The names with a deletion among the entries. */
  ghost function DelNames(j: seq<Entry>): (s: set<Name>)
    ensures forall n :: n in s <==> DelPending(j, n)
  {
    set e | e in j && !e.add :: e.name
  }

  /** The replay has come to entry `i` of `j0`, which stands at `p` in what is left of it. */
  ghost predicate Halfway(v0: Sides, j0: seq<Entry>, i: nat, v: Sides, j: seq<Entry>, p: nat) {
    && Optimised(j0) && i <= |j0| && p <= |j| && j[p..] == j0[i..]
    && Explains(v, j) && KeptContested(v, j, p)
    && Tracks(v0, j0, i, v, DelNames(j[..p]))
  }

  /** Another name stays refused. */
  lemma ContestedStays(v: Sides, x: Entry, e: Entry, w: Sides)
    requires Sound(v) && Replayed(v, e, w) && Contested(v, x) && x.name != e.name
    ensures Contested(w, x)
  {
    if w != v && !e.add {
      assert (v.remote - {e.name})[x.name] in (v.remote - {e.name}).Values;
    }
  }

  lemma RefusedThenDoubled(v: Sides, j: seq<Entry>, p: nat, q: nat)
    requires Explains(v, j) && q < p < |j| && KeptContested(v, j, p) && Contested(v, j[q])
    ensures j[q].name != j[p].name || Doubled(v, j[p])
  {
    if j[q].name == j[p].name {
      AdditionIsNew(v, j, p);
      assert j[q] in j;
    }
  }

  lemma KeptStays(v: Sides, j: seq<Entry>, p: nat, w: Sides)
    requires Explains(v, j) && p < |j| && KeptContested(v, j, p)
    requires Replayed(v, j[p], w) && !Doubled(v, j[p])
    ensures KeptContested(w, RemoveAt(j, p), p)
  {
    var k := RemoveAt(j, p);
    assert k[..p] == j[..p];
    forall q | 0 <= q < p ensures Contested(w, k[q]) || (k[q].add && DelPending(k[..p], k[q].name)) {
      if Contested(v, j[q]) {
        RefusedThenDoubled(v, j, p, q);
        ContestedStays(v, j[q], j[p], w);
      }
    }
  }

  lemma KeptMore(v: Sides, j: seq<Entry>, p: nat)
    requires p < |j| && KeptContested(v, j, p)
    requires Contested(v, j[p]) || (j[p].add && DelPending(j[..p], j[p].name))
    ensures KeptContested(v, j, p + 1)
    ensures DelNames(j[..p + 1]) == if j[p].add then DelNames(j[..p]) else DelNames(j[..p]) + {j[p].name}
  {
    assert j[..p + 1] == j[..p] + [j[p]];
    forall n ensures DelPending(j[..p + 1], n) <==> DelPending(j[..p], n) || (!j[p].add && j[p].name == n) {
      AppendedPending(j[..p], j[p], n);
    }
  }

  /** An addition that is kept follows a deletion that was. */
  lemma DoubledIsStuck(v: Sides, j: seq<Entry>, p: nat)
    requires Explains(v, j) && p < |j| && KeptContested(v, j, p) && j[p].add
    ensures Doubled(v, j[p]) <==> DelPending(j[..p], j[p].name)
  {
    AdditionIsNew(v, j, p);
    if DelPending(j, j[p].name) {
      var d :| d in j && !d.add && d.name == j[p].name;
      var k :| 0 <= k < |j| && j[k] == d;
      assert j[..p][k] == d;
    }
    if DelPending(j[..p], j[p].name) {
      var d :| d in j[..p] && !d.add && d.name == j[p].name;
      assert d in j;
    }
  }

  /** A conflict keeps the entry and changes nothing. */
  lemma HalfwayKept(v0: Sides, j0: seq<Entry>, i: nat, v: Sides, j: seq<Entry>, p: nat)
    requires Halfway(v0, j0, i, v, j, p) && i < |j0| && (Contested(v, j[p]) || Doubled(v, j[p]))
    ensures Halfway(v0, j0, i + 1, v, j, p + 1)
  {
    assert j[p] == j[p..][0] == j0[i];
    assert j[p + 1..] == j[p..][1..] == j0[i..][1..] == j0[i + 1..];
    if j[p].add {
      DoubledIsStuck(v, j, p);
      TrackDoubled(v0, j0, i, v, DelNames(j[..p]));
    } else {
      TrackRefused(v0, j0, i, v, DelNames(j[..p]));
    }
    KeptMore(v, j, p);
  }

  /** Without a conflict the entry goes. */
  lemma HalfwaySent(v0: Sides, j0: seq<Entry>, i: nat, v: Sides, j: seq<Entry>, p: nat, w: Sides)
    requires Halfway(v0, j0, i, v, j, p) && i < |j0| && !Contested(v, j[p]) && !Doubled(v, j[p])
    requires Replayed(v, j[p], w)
    ensures Halfway(v0, j0, i + 1, w, RemoveAt(j, p), p)
  {
    assert j[p] == j[p..][0] == j0[i];
    var k := RemoveAt(j, p);
    assert k[p..] == j[p + 1..] == j[p..][1..] == j0[i..][1..] == j0[i + 1..];
    assert k[..p] == j[..p];
    ReplayedExplained(v, j, p, w);
    KeptStays(v, j, p, w);
    TrackSent(v0, j0, i, v, j, p, w);
  }

  lemma TrackSent(v0: Sides, j0: seq<Entry>, i: nat, v: Sides, j: seq<Entry>, p: nat, w: Sides)
    requires Halfway(v0, j0, i, v, j, p) && i < |j0| && !Contested(v, j[p]) && !Doubled(v, j[p])
    requires Replayed(v, j[p], w)
    ensures Tracks(v0, j0, i + 1, w, DelNames(j[..p]))
  {
    var e, stuck := j[p], DelNames(j[..p]);
    assert e == j[p..][0] == j0[i] && e in j && Accounts(v, j, e.name);
    if !e.add {
      assert e.name !in stuck by {
        forall d | d in j[..p] ensures d.name != e.name || d.add {
          var q :| 0 <= q < p && j[q] == d;
        }
      }
      TrackDelSent(v0, j0, i, v, stuck, j, p, w);
    } else {
      AdditionIsNew(v, j, p);
      DoubledIsStuck(v, j, p);
      if v.files[e.file].master == None {
        forall x | x in j0[i..] ensures x in j {
          assert x in j[p..];
        }
        TrackCreated(v0, j0, i, v, stuck, j);
      } else if Drops(v, e) {
        TrackDropped(v0, j0, i, v, stuck, w);
      } else {
        if RemoteFolder(v, e.master.value) {
          FolderIsAway(v, j, p, e.master.value);
        }
        TrackMoved(v0, j0, i, v, stuck, e.master.value);
      }
    }
  }

  /** The journal `j0`, which explained the difference, was replayed and `j` is left of it.
      The local side wins: it keeps every name but the dropped ones, which are exactly known,
      and every file its handle.  The master has the same names for the same files, except
      for those whose deletion it refuses; there it is as it was.  The rest of the journal
      explains what difference is left. */
  ghost predicate Reintegrated(v0: Sides, j0: seq<Entry>, v: Sides, j: seq<Entry>) {
    && Explains(v, j)
    && (forall n :: AgreeAt(v, n) || DelPending(j, n))
    && (forall e :: e in j && !e.add ==> Contested(v, e))
    && LocalTracked(v0, j0, |j0|, v, DelNames(j))
    && FilesTracked(v0, j0, |j0|, v, DelNames(j))
    && StuckTracked(v0, j0, |j0|, v, DelNames(j))
  }

  lemma HalfwayStarts(v: Sides, j: seq<Entry>)
    requires Explains(v, j)
    ensures Halfway(v, j, 0, v, j, 0)
  {
    assert j[0..] == j && j[..0] == [];
    forall k | 0 <= k < |j| && !j[k].add ensures SameAt(v, v, j[k].name) {
      assert j[k] in j && Accounts(v, j, j[k].name);
    }
  }

  lemma HalfwayEnds(v0: Sides, j0: seq<Entry>, v: Sides, j: seq<Entry>)
    requires Halfway(v0, j0, |j0|, v, j, |j|)
    ensures Reintegrated(v0, j0, v, j)
  {
    assert j[..|j|] == j;
    forall n ensures AgreeAt(v, n) || DelPending(j, n) {
      assert Accounts(v, j, n);
      if AddPending(j, n) {
        var e :| e in j && e.add && e.name == n;
        var q :| 0 <= q < |j| && j[q] == e;
      }
    }
    forall e | e in j && !e.add ensures Contested(v, e) {
      var q :| 0 <= q < |j| && j[q] == e;
    }
  }

  /** Where a deletion was refused the two sides do not agree. */
  lemma RefusedDisagrees(v: Sides, j: seq<Entry>, e: Entry)
    requires Explains(v, j) && e in j && Contested(v, e)
    ensures !AgreeAt(v, e.name)
  {
    assert EntryKnown(v, e);
  }

  /** Before the replay: no deleted file was changed on the master, what is to be added under a
      handle exists there, and a file without a handle is added once. */
  ghost predicate Clean(v: Sides, j: seq<Entry>) {
    && (forall e :: e in j && !e.add ==> !Changed(v, e))
    && (forall e :: e in j && e.add && e.master.Some? ==> e.master.value in v.attrs)
    && (forall e :: e in j && e.add && e.master == None && e.file in v.files ==> v.files[e.file].master == None)
    && (forall k, l :: 0 <= k < l < |j| && j[k].add && j[l].add && j[k].file == j[l].file ==> j[l].master.Some?)
  }

  lemma CleanKeepsAll(v0: Sides, j0: seq<Entry>, v: Sides, j: seq<Entry>)
    requires Explains(v0, j0) && Clean(v0, j0) && Reintegrated(v0, j0, v, j)
    ensures (forall n :: !DelPending(j, n)) && v.local == v0.local
  {
    forall k | 0 <= k < |j0| && !j0[k].add ensures !Changed(v0, j0[k]) {
      assert j0[k] in j0;
    }
    assert forall n :: !Refused(v0, j0, |j0|, v, n);
    assert forall n :: n !in DelNames(j);
    forall k: nat ensures !Droppable(v0, j0, k, DelNames(j)) {
      assert k < |j0| ==> j0[k] in j0;
    }
  }

  /** Then the local listing is kept whole and the master's listing becomes it. */
  lemma CleanReplay(v0: Sides, j0: seq<Entry>, v: Sides, j: seq<Entry>)
    requires Explains(v0, j0) && Clean(v0, j0) && Reintegrated(v0, j0, v, j)
    ensures v.local == v0.local && v.remote.Keys == v0.local.Keys
    ensures forall n :: !DelPending(j, n) && !AddPending(j, n)
    ensures forall n :: n in v0.local ==> v.local[n] in v.files && v.files[v.local[n]].master == Some(v.remote[n])
  {
    CleanKeepsAll(v0, j0, v, j);
    forall n
      ensures n in v.remote <==> n in v.local
      ensures n in v.local ==> v.local[n] in v.files && v.files[v.local[n]].master == Some(v.remote[n])
      ensures !AddPending(j, n)
    {
      assert AgreeAt(v, n) && Accounts(v, j, n);
    }
  }

  // ----- runs of the replay -----

  /** The replay stands at entry `p` of what is left of the journal, and has changed the
      listing of the master `increase` times. */
  datatype Replay = Replay(sides: Sides, journal: seq<Entry>, p: nat, conflicts: set<Name>, increase: nat)

  ghost predicate ReplaySteps(s: Replay, t: Replay) {
    && s.p < |s.journal| && Sound(s.sides) && Optimised(s.journal)
    && Replayed(s.sides, s.journal[s.p], t.sides)
    && ConflictsAfter(s.sides, s.journal[s.p], s.conflicts, t.conflicts)
    && t.increase == (if t.sides.remote != s.sides.remote then s.increase + 1 else s.increase)
    && if Contested(s.sides, s.journal[s.p]) || Doubled(s.sides, s.journal[s.p])
       then t.journal == s.journal && t.p == s.p + 1
       else t.journal == RemoveAt(s.journal, s.p) && t.p == s.p
  }

  ghost predicate ReplayRun(run: seq<Replay>) {
    run != [] && forall k :: 0 <= k < |run| - 1 ==> ReplaySteps(run[k], run[k + 1])
  }

  /** The replay has come to entry `i` of `j0`, which stands at `p` in what is left of it. */
  ghost predicate Replaying(v0: Sides, j0: seq<Entry>, i: nat, s: Replay) {
    && Sound(s.sides) && Optimised(s.journal)
    && s.p <= |s.journal| && i <= |j0| && s.journal[s.p..] == j0[i..]
    && Frames(v0, j0[..i], s.sides)
    && (forall e :: e in s.journal ==> e in j0)
    && (forall e :: e in s.journal[..s.p] ==> Noted(s.sides, s.conflicts, e))
    && s.increase + |s.journal| <= |j0|
    && (KindsAgree(v0) ==> KindsAgree(s.sides))
  }

  lemma ReplayingMore(v0: Sides, j0: seq<Entry>, i: nat, s: Replay, t: Replay)
    requires Sound(v0) && Replaying(v0, j0, i, s) && ReplaySteps(s, t)
    ensures Replaying(v0, j0, i + 1, t)
  {
    var j, p := s.journal, s.p;
    assert |j[p..]| == |j0[i..]|;
    ReplayedSound(s.sides, j[p], t.sides);
    RemovedOptimised(j, p);
    RemovedMembers(j, p);
    EntryFrames(v0, j0, i, s.sides, j, p, t.sides);
    EntryNoted(s.sides, j, p, t.sides, s.conflicts, t.conflicts);
  }

  lemma {:induction false} ReplayingAt(run: seq<Replay>, i: nat)
    requires ReplayRun(run) && i < |run| && Sound(run[0].sides) && Optimised(run[0].journal)
    requires run[0].p == 0 && run[0].increase == 0
    ensures Replaying(run[0].sides, run[0].journal, i, run[i])
  {
    if i == 0 {
      assert run[0].journal[..0] == [] && run[0].journal[0..] == run[0].journal;
    } else {
      ReplayingAt(run, i - 1);
      assert ReplaySteps(run[i - 1], run[i]);
      ReplayingMore(run[0].sides, run[0].journal, i - 1, run[i - 1], run[i]);
    }
  }

  /** A run from the start of the journal to its end. */
  ghost predicate WholeReplay(run: seq<Replay>) {
    && ReplayRun(run) && Sound(run[0].sides) && Optimised(run[0].journal)
    && run[0].p == 0 && run[0].increase == 0
    && run[|run| - 1].p == |run[|run| - 1].journal|
  }

  /** In every run, whatever the journal holds: names are lost and gained only where it tells. */
  lemma ReplayFrames(run: seq<Replay>)
    requires WholeReplay(run)
    ensures |run| == |run[0].journal| + 1
    ensures Frames(run[0].sides, run[0].journal, run[|run| - 1].sides)
    ensures KindsAgree(run[0].sides) ==> KindsAgree(run[|run| - 1].sides)
    ensures Sound(run[|run| - 1].sides)
  {
    var end := run[|run| - 1];
    ReplayingAt(run, |run| - 1);
    assert |end.journal[end.p..]| == |run[0].journal[|run| - 1..]|;
    assert run[0].journal[..|run| - 1] == run[0].journal;
  }

  /** What stays in the journal is in conflict, unless it is the deletion of a name that was
      added again for the same file. */
  lemma ReplayNotes(run: seq<Replay>)
    requires WholeReplay(run)
    ensures var end := run[|run| - 1];
            && end.increase + |end.journal| <= |run[0].journal|
            && (forall e :: e in end.journal ==> e in run[0].journal && Noted(end.sides, end.conflicts, e))
            && (forall n :: DelPending(end.journal, n) ==> n in end.conflicts || AgreeAt(end.sides, n))
            && (forall n :: AddPending(end.journal, n) ==> n in end.conflicts)
  {
    var end := run[|run| - 1];
    ReplayingAt(run, |run| - 1);
    assert end.journal[..end.p] == end.journal;
  }

  lemma {:induction false} HalfwayAt(run: seq<Replay>, i: nat)
    requires ReplayRun(run) && i < |run| && run[0].p == 0 && Explains(run[0].sides, run[0].journal)
    ensures Halfway(run[0].sides, run[0].journal, i, run[i].sides, run[i].journal, run[i].p)
  {
    if i == 0 {
      HalfwayStarts(run[0].sides, run[0].journal);
    } else {
      HalfwayAt(run, i - 1);
      var s, t := run[i - 1], run[i];
      assert ReplaySteps(s, t);
      HalfwayMore(run[0].sides, run[0].journal, i - 1, s, t);
    }
  }

  lemma HalfwayMore(v0: Sides, j0: seq<Entry>, i: nat, s: Replay, t: Replay)
    requires Halfway(v0, j0, i, s.sides, s.journal, s.p) && ReplaySteps(s, t)
    ensures Halfway(v0, j0, i + 1, t.sides, t.journal, t.p)
  {
    var v, j, p := s.sides, s.journal, s.p;
    assert |j[p..]| == |j0[i..]|;
    if Contested(v, j[p]) || Doubled(v, j[p]) {
      assert !j[p].add || j[p].name in v.remote;
      HalfwayKept(v0, j0, i, v, j, p);
    } else {
      HalfwaySent(v0, j0, i, v, j, p, t.sides);
    }
  }

  /** In every run of a journal that explained the difference, the local side wins. */
  lemma ReplayExplained(run: seq<Replay>)
    requires WholeReplay(run) && Explains(run[0].sides, run[0].journal)
    ensures var end := run[|run| - 1];
            && Reintegrated(run[0].sides, run[0].journal, end.sides, end.journal)
            && (forall e :: e in end.journal ==> e.name in end.conflicts)
  {
    var end := run[|run| - 1];
    ReplayFrames(run);
    ReplayNotes(run);
    HalfwayAt(run, |run| - 1);
    HalfwayEnds(run[0].sides, run[0].journal, end.sides, end.journal);
    forall e | e in end.journal ensures e.name in end.conflicts {
      assert Noted(end.sides, end.conflicts, e);
      if !e.add {
        RefusedDisagrees(end.sides, end.journal, e);
      }
    }
  }

  /** With the journal empty and all names agreeing, nothing is left to explain, provided that
      no handle of a folder stands for something else here, or the other way round. */
  lemma AgreedExplains(v: Sides)
    requires Sound(v) && forall n :: AgreeAt(v, n)
    ensures Explains(v, []) <==> KindsAgree(v)
  {
  }

  /** A local name is lost exactly when it is dropped, and then the master does not get it. */
  lemma DroppedIsLost(run: seq<Replay>, n: Name)
    requires WholeReplay(run) && Explains(run[0].sides, run[0].journal) && n in run[0].sides.local
    ensures var v0, j0, end := run[0].sides, run[0].journal, run[|run| - 1];
            && (n !in end.sides.local <==> DroppedBy(v0, j0, |j0|, DelNames(end.journal), n))
            && (n !in end.sides.local ==> n !in end.sides.remote)
  {
    ReplayExplained(run);
    var end := run[|run| - 1];
    assert AgreeAt(end.sides, n) || DelPending(end.journal, n);
  }

  /** The names whose deletion is refused from the start. */
  ghost function RefusedNames(v: Sides, j: seq<Entry>): set<Name> {
    set e | e in j && Contested(v, e) :: e.name
  }

  /** No deletion waits to be refused until the replay has dropped the last name of its file. */
  ghost predicate RefusedAtOnce(v: Sides, j: seq<Entry>) {
    forall e :: e in j && !e.add && Changed(v, e) ==> e.file !in v.files
  }

  /** Then the deletions that stay are known before the replay. */
  lemma RefusedKnown(run: seq<Replay>)
    requires WholeReplay(run) && Explains(run[0].sides, run[0].journal) && RefusedAtOnce(run[0].sides, run[0].journal)
    ensures DelNames(run[|run| - 1].journal) == RefusedNames(run[0].sides, run[0].journal)
  {
    var v0, j0, end := run[0].sides, run[0].journal, run[|run| - 1];
    ReplayExplained(run);
    forall n | n in DelNames(end.journal) ensures n in RefusedNames(v0, j0) {
      assert Refused(v0, j0, |j0|, end.sides, n);
      var k :| 0 <= k < |j0| && !j0[k].add && j0[k].name == n && Changed(v0, j0[k]) && j0[k].file !in end.sides.files;
      assert j0[k] in j0 && Contested(v0, j0[k]);
    }
    forall n | n in RefusedNames(v0, j0) ensures n in DelNames(end.journal) {
      var e :| e in j0 && Contested(v0, e) && e.name == n;
      var k :| 0 <= k < |j0| && j0[k] == e;
      assert Contested(v0, j0[k]);
    }
  }

  /** So which local names are lost is decided before the replay. */
  lemma LostExactly(run: seq<Replay>, n: Name)
    requires WholeReplay(run) && Explains(run[0].sides, run[0].journal) && RefusedAtOnce(run[0].sides, run[0].journal)
    requires n in run[0].sides.local
    ensures var v0, j0, end := run[0].sides, run[0].journal, run[|run| - 1].sides;
            && (n !in end.local <==> DroppedBy(v0, j0, |j0|, RefusedNames(v0, j0), n))
            && (n !in end.local ==> n !in end.remote)
  {
    RefusedKnown(run);
    DroppedIsLost(run, n);
  }

  function TwoLinks(): Sides {
    Sides(map["a" := 0, "b" := 0], map[0 := Meta(None, 1, 0, false, Regular)], map[], map[], 1, 0)
  }

  function TwoAdditions(): seq<Entry> {
    [Entry(true, "a", 0, None, 0), Entry(true, "b", 0, None, 0)]
  }

  lemma TwoLinksExplained()
    ensures Explains(TwoLinks(), TwoAdditions())
  {
    var v, j := TwoLinks(), TwoAdditions();
    assert j[0] in j && j[1] in j;
    forall n ensures Accounts(v, j, n) {
    }
  }

  /** Two hard links to a file that the master does not know: the journal explains them, and
      every replay of it loses the second name on both sides. */
  lemma HardLinkDropped(run: seq<Replay>)
    requires WholeReplay(run) && run[0].sides == TwoLinks() && run[0].journal == TwoAdditions()
    ensures Explains(run[0].sides, run[0].journal)
    ensures "b" in run[0].sides.local && "b" !in run[|run| - 1].sides.local && "b" !in run[|run| - 1].sides.remote
  {
    TwoLinksExplained();
    var j := TwoAdditions();
    assert j[0].add && j[0].file == 0 && j[1].name == "b";
    assert RefusedNames(TwoLinks(), j) == {} && Droppable(TwoLinks(), j, 1, {});
    assert DroppedBy(TwoLinks(), j, 2, {}, "b");
    LostExactly(run, "b");
  }
}
