/** What this node knows of the files on the master, and what a replay may delete there. */
module Deletions {
  import opened Options
  import opened Journal
  import opened Reintegration

  /** `known` with the versions of the master that are recorded now: for a file that is gone
      the last one stays. */
  function Noticed(known: map<Handle, nat>, v: Sides): (r: map<Handle, nat>)
    requires Sound(v)
    ensures forall f :: f in v.files && v.files[f].master.Some? ==>
              v.files[f].master.value in r && r[v.files[f].master.value] == v.files[f].masterVersion
    ensures forall h :: h in r ==> (h in known && r[h] == known[h]) || exists f :: f in v.files && v.files[f].master == Some(h)
    ensures forall h :: h in known ==> h in r
    ensures forall h :: h in known && (forall f :: f in v.files ==> v.files[f].master != Some(h)) ==> r[h] == known[h]
  {
    known + map f | f in v.files && v.files[f].master.Some? :: v.files[f].master.value := v.files[f].masterVersion
  }

  /** `known` is what was recorded last; no recorded deletion is newer than that, and the master
      is not behind it. */
  ghost predicate Remembers(known: map<Handle, nat>, v: Sides, journal: seq<Entry>) {
    && (forall f :: f in v.files && v.files[f].master.Some? ==>
          v.files[f].master.value in known && known[v.files[f].master.value] == v.files[f].masterVersion)
    && (forall e :: e in journal && !e.add && e.master.Some? ==> e.master.value in known && e.masterVersion <= known[e.master.value])
    && (forall h :: h in known ==> h < v.nextHandle)
    && (forall h :: h in known && h in v.attrs ==> known[h] <= v.attrs[h].version)
  }

  /** Both sides only move forward from what is known. */
  predicate Forward(known: map<Handle, nat>, w: Sides) {
    && (forall h :: h in known ==> h < w.nextHandle)
    && (forall h :: h in known && h in w.attrs ==> known[h] <= w.attrs[h].version)
    && (forall f :: f in w.files && w.files[f].master.Some? && w.files[f].master.value in known ==>
          known[w.files[f].master.value] <= w.files[f].masterVersion)
    && (forall f :: f in w.files && w.files[f].master.Some? ==> w.files[f].master.value < w.nextHandle)
    && (forall f :: f in w.files && w.files[f].master.Some? && w.files[f].master.value in w.attrs ==>
          w.files[f].masterVersion <= w.attrs[w.files[f].master.value].version)
  }

  lemma ForwardRemembers(known: map<Handle, nat>, v: Sides, j: seq<Entry>, w: Sides, k: seq<Entry>)
    requires Remembers(known, v, j) && Sound(w) && Forward(known, w) && forall e :: e in k && !e.add ==> e in j
    ensures Remembers(Noticed(known, w), w, k)
  {
    NoticedGrows(known, w);
    NoticedBehind(known, w);
  }

  lemma NoticedGrows(known: map<Handle, nat>, w: Sides)
    requires Sound(w) && Forward(known, w)
    ensures forall h :: h in known ==> h in Noticed(known, w) && known[h] <= Noticed(known, w)[h]
  {
    var more := Noticed(known, w);
    forall h | h in known ensures h in more && known[h] <= more[h] {
      if f :| f in w.files && w.files[f].master == Some(h) {
        assert more[h] == w.files[f].masterVersion;
      }
    }
  }

  lemma NoticedBehind(known: map<Handle, nat>, w: Sides)
    requires Sound(w) && Forward(known, w)
    ensures forall h :: h in Noticed(known, w) ==>
              h < w.nextHandle && (h in w.attrs ==> Noticed(known, w)[h] <= w.attrs[h].version)
  {
    var more := Noticed(known, w);
    forall h | h in more ensures h < w.nextHandle && (h in w.attrs ==> more[h] <= w.attrs[h].version) {
      if f :| f in w.files && w.files[f].master == Some(h) {
        assert more[h] == w.files[f].masterVersion;
      }
    }
  }

  /** A local operation that records the truth. */
  lemma OperationRemembers(known: map<Handle, nat>, v: Sides, j: seq<Entry>, w: Sides, k: seq<Entry>)
    requires Remembers(known, v, j) && Truthful(v, j, k) && w.attrs == v.attrs && w.nextHandle == v.nextHandle
    requires forall f :: f in w.files && w.files[f].master.Some? ==> f in v.files && w.files[f] == v.files[f]
    ensures Remembers(known, w, k)
  {
    forall e | e in k && !e.add && e.master.Some? ensures e.master.value in known && e.masterVersion <= known[e.master.value] {
      if e !in j {
        assert e.file in v.files && e.master == v.files[e.file].master;
      }
    }
  }

  // ----- the replay -----

  /** What came to the master, or got a handle, after `v0` is at version 1 there. */
  ghost predicate FreshOnMaster(v0: Sides, v: Sides) {
    && v0.nextHandle <= v.nextHandle
    && (forall h :: h in v.attrs && v0.nextHandle <= h ==> v.attrs[h].version == 1)
    && (forall f :: f in v.files && v.files[f].master.Some? ==>
          (f in v0.files && v.files[f] == v0.files[f]) || (v0.nextHandle <= v.files[f].master.value && v.files[f].masterVersion == 1))
  }

  lemma FreshStep(v0: Sides, v: Sides, e: Entry, w: Sides)
    requires FreshOnMaster(v0, v) && Sound(v) && Replayed(v, e, w)
    ensures FreshOnMaster(v0, w)
  {
    if e.add && e.name in v.local && e.name !in v.remote && v.files[v.local[e.name]].master == None {
      FreshCreated(v0, v, e.name);
    } else {
      FreshSame(v0, v, w);
    }
  }

  lemma FreshCreated(v0: Sides, v: Sides, n: Name)
    requires FreshOnMaster(v0, v) && Sound(v) && n in v.local
    ensures FreshOnMaster(v0, Created(v, n))
  {
  }

  lemma FreshSame(v0: Sides, v: Sides, w: Sides)
    requires FreshOnMaster(v0, v) && w.nextHandle == v.nextHandle
    requires forall h :: h in w.attrs ==> h in v.attrs && w.attrs[h] == v.attrs[h]
    requires forall f :: f in w.files ==> f in v.files && w.files[f] == v.files[f]
    ensures FreshOnMaster(v0, w)
  {
  }

  lemma {:induction false} FreshAt(run: seq<Replay>, k: nat)
    requires ReplayRun(run) && k < |run| && Sound(run[0].sides)
    ensures FreshOnMaster(run[0].sides, run[k].sides)
  {
    if k > 0 {
      FreshAt(run, k - 1);
      assert ReplaySteps(run[k - 1], run[k]);
      FreshStep(run[0].sides, run[k - 1].sides, run[k - 1].journal[run[k - 1].p], run[k].sides);
    }
  }

  /** The replay deletes no regular file whose version on the master is not the one known here. */
  ghost predicate Careful(run: seq<Replay>, known: map<Handle, nat>) {
    forall k, h :: 0 <= k < |run| - 1 && h in run[k].sides.attrs && h !in run[k + 1].sides.attrs
                   && run[k].sides.attrs[h].kind == Regular ==>
      h in known && run[k].sides.attrs[h].version == known[h]
  }

  lemma DeletionSent(s: Replay, t: Replay, h: Handle)
    requires ReplaySteps(s, t) && h in s.sides.attrs && h !in t.sides.attrs && s.sides.attrs[h].kind == Regular
    ensures var e := s.journal[s.p]; e in s.journal && !e.add && e.master == Some(h) && e.masterVersion == s.sides.attrs[h].version
  {
  }

  /** It deletes only what nobody changed since it was last recorded here. */
  lemma DeletesOnlyKnown(run: seq<Replay>, known: map<Handle, nat>)
    requires WholeReplay(run) && Remembers(known, run[0].sides, run[0].journal)
    ensures Careful(run, known)
  {
    forall k, h | 0 <= k < |run| - 1 && h in run[k].sides.attrs && h !in run[k + 1].sides.attrs
                  && run[k].sides.attrs[h].kind == Regular
      ensures h in known && run[k].sides.attrs[h].version == known[h]
    {
      assert ReplaySteps(run[k], run[k + 1]);
      DeletionSent(run[k], run[k + 1], h);
      ReplayingAt(run, k);
      assert Frames(run[0].sides, run[0].journal[..k], run[k].sides);
    }
  }

  /** What is known after a replay and what followed it. */
  lemma ReplayForward(run: seq<Replay>, known: map<Handle, nat>, w: Sides)
    requires WholeReplay(run) && Remembers(known, run[0].sides, run[0].journal) && Sound(w)
    requires w.attrs == run[|run| - 1].sides.attrs && run[|run| - 1].sides.nextHandle <= w.nextHandle
    requires forall f :: f in w.files && w.files[f].master.Some? && f in run[|run| - 1].sides.files ==>
               w.files[f] == run[|run| - 1].sides.files[f]
    requires forall f :: f in w.files && f !in run[|run| - 1].sides.files ==>
               w.files[f].master.Some? && w.files[f].master.value in w.attrs
               && w.files[f].masterVersion == w.attrs[w.files[f].master.value].version
    ensures Forward(known, w)
  {
    var v0, v := run[0].sides, run[|run| - 1].sides;
    FreshAt(run, |run| - 1);
    ReplayFrames(run);
    forall h | h in known && h in w.attrs ensures known[h] <= w.attrs[h].version {
      assert h < v0.nextHandle;
    }
    forall f | f in w.files && w.files[f].master.Some?
      ensures var h := w.files[f].master.value;
              && (h in known ==> known[h] <= w.files[f].masterVersion)
              && (h in w.attrs ==> w.files[f].masterVersion <= w.attrs[h].version)
    {
      if f in v.files {
        var h := w.files[f].master.value;
        assert (f in v0.files && v.files[f] == v0.files[f]) || (v0.nextHandle <= h && v.files[f].masterVersion == 1);
      }
    }
  }
}
