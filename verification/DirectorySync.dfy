/** Synchronisation of one cached directory with the volume master: local operations that
    record what they do in the journal, replay of the journal, then an update that merges the
    two listings.  Every remote and local call succeeds.  Choices over hash tables are
    arbitrary, so what is proved holds for every iteration order. */
module DirectorySync {
  import opened Options
  import opened Journal
  import opened Reintegration
  import opened Deletions
  import FileSync

  predicate Modified(m: Meta) { m.localVersion != m.masterVersion }

  /** Both sides changed the contents of a regular file. */
  predicate DataConflict(m: Meta, a: Attr) {
    m.kind == Regular && m.localVersion > m.masterVersion && a.version > m.masterVersion
  }

  /** The conflict of a file in a directory is that of the file itself: in every reachable state it
      is there exactly when both sides moved, and without it every byte that is updated and not
      modified is the master's. */
  lemma ConflictIsDivergence(states: seq<FileSync.State>, steps: seq<FileSync.Step>, i: nat, m: Meta, a: Attr)
    requires FileSync.SizedRun(states, steps) && i < |states| && m.kind == Regular
    requires m.localVersion == states[i].cache.localVersion && m.masterVersion == states[i].cache.masterVersion
    requires a.version == states[i].master.version
    ensures DataConflict(m, a) <==> FileSync.Diverged(states[i])
    ensures DataConflict(m, a) <==> FileSync.DataConflict(states[i].cache, states[i].master.version)
    ensures !DataConflict(m, a) ==> FileSync.Coherent(states[i])
  {
    FileSync.RunKeepsInv(states, steps, i);
  }

  // ----- what merging does to a local entry -----

  ghost function MasterOf(v: Sides, n: Name): Option<Handle> {
    if n in v.remote then Some(v.remote[n]) else None
  }

  /** A locally modified entry whose name the master deleted or gave to another file. */
  ghost predicate ClashAt(v: Sides, n: Name) {
    && n in v.local && v.local[n] in v.files
    && v.files[v.local[n]].master != MasterOf(v, n) && Modified(v.files[v.local[n]])
  }

  /** The name stands for the same file of the same kind. */
  ghost predicate SameFileAt(v: Sides, n: Name) {
    && n in v.local && v.local[n] in v.files && n in v.remote && v.remote[n] in v.attrs
    && v.files[v.local[n]].master == Some(v.remote[n]) && v.files[v.local[n]].kind == v.attrs[v.remote[n]].kind
  }

  /** The entry is taken away. */
  ghost predicate TakenAt(v: Sides, n: Name) {
    n in v.local && !ClashAt(v, n) && !SameFileAt(v, n)
  }

  /** What becomes of an entry, in handles, kinds and versions. */
  lemma EntryFate(v: Sides, n: Name)
    requires Sound(v) && n in v.local
    ensures var m := v.files[v.local[n]];
            && (n in v.remote && m.master == Some(v.remote[n]) ==>
                  !ClashAt(v, n) && (TakenAt(v, n) <==> m.kind != v.attrs[v.remote[n]].kind))
            && (n in v.remote && m.master != Some(v.remote[n]) ==>
                  (ClashAt(v, n) <==> m.localVersion != m.masterVersion) && (TakenAt(v, n) <==> m.localVersion == m.masterVersion))
            && (n !in v.remote && m.master != None ==>
                  (ClashAt(v, n) <==> m.localVersion != m.masterVersion) && (TakenAt(v, n) <==> m.localVersion == m.masterVersion))
            && (n !in v.remote && m.master == None ==> TakenAt(v, n) && !ClashAt(v, n))
  {
  }

  /** A locally modified entry is taken away exactly when the master has reused the handle of
      its file for another kind of file, or when neither side of the name is on the master. */
  lemma ModifiedTaken(v: Sides, n: Name)
    requires Sound(v) && n in v.local && Modified(v.files[v.local[n]])
    ensures TakenAt(v, n) <==>
              || (n in v.remote && v.files[v.local[n]].master == Some(v.remote[n])
                  && v.files[v.local[n]].kind != v.attrs[v.remote[n]].kind)
              || (n !in v.remote && v.files[v.local[n]].master == None)
  {
  }

  /** A regular file with local changes, whose handle the master gave to a new folder. */
  lemma ReusedHandle() returns (v: Sides)
    ensures Sound(v) && "a" in v.local && Modified(v.files[v.local["a"]]) && v.files[v.local["a"]].dirty
    ensures MasterOf(v, "a") == v.files[v.local["a"]].master && !ClashAt(v, "a") && TakenAt(v, "a")
  {
    v := Sides(map["a" := 0], map[0 := Meta(Some(7), 2, 1, true, Regular)], map["a" := 7], map[7 := Attr(1, Folder)], 1, 8);
  }

  /** File `f` still has name `c`, or a name on which both sides agree. */
  ghost predicate KeepAt(v: Sides, c: Name, f: FileId) {
    && f in v.files
    && ((c in v.local && v.local[c] == f) || exists p :: p in v.local && v.local[p] == f && AgreeAt(v, p))
  }

  // ----- handles of folders that the master gave to something else -----

  /** Handle `h` belongs to a local folder. */
  ghost predicate FolderOwns(v: Sides, h: Handle) {
    exists f :: LocalFolder(v, f) && v.files[f].master == Some(h)
  }

  /** Two names of the master for a file that is a folder here, so that only one can be bound. */
  ghost predicate Shares(v: Sides, a: Name, b: Name) {
    a != b && a in v.remote && b in v.remote && v.remote[a] == v.remote[b] && FolderOwns(v, v.remote[a])
  }

  /** A name that the second loop binds. */
  ghost predicate Left(v: Sides, journal: seq<Entry>, n: Name) {
    n in v.remote && !DelPending(journal, n) && (n in v.local ==> TakenAt(v, n))
  }

  /** A name that the second loop binds, and may lose again to another one. */
  ghost predicate Crowded(v: Sides, journal: seq<Entry>, n: Name) {
    Left(v, journal, n) && exists b :: Left(v, journal, b) && Shares(v, n, b)
  }

  /** A shared name stands for no folder on the master. */
  lemma SharedIsNoFolder(v: Sides, a: Name, b: Name)
    requires Sound(v) && Shares(v, a, b)
    ensures !RemoteFolder(v, v.remote[a])
  {
  }

  /** Not both of them agree. */
  lemma SharedDisagree(v: Sides, a: Name, b: Name)
    requires Sound(v) && Shares(v, a, b)
    ensures !AgreeAt(v, a) || !AgreeAt(v, b)
  {
    var f :| LocalFolder(v, f) && v.files[f].master == Some(v.remote[a]);
    assert AgreeAt(v, a) ==> v.local[a] == f;
    assert AgreeAt(v, b) ==> v.local[b] == f;
  }

  /** Naming a file of the master where the name is free, which moves a folder, keeps every
      kept file, and every agreement but that of a name that shares the folder. */
  lemma BindKeeps(v: Sides, n: Name, f: FileId)
    requires Sound(v) && n in v.remote && n !in v.local && f in v.files && v.files[f].master == Some(v.remote[n])
    ensures var w := v.(local := Bind(v.local, n, f, v.files[f].kind == Folder));
            && Sound(w) && AgreeAt(w, n) && (KindsAgree(v) ==> KindsAgree(w))
            && (forall a :: AgreeAt(v, a) ==> AgreeAt(w, a) || Shares(v, a, n))
            && (forall c, g :: c != n && KeepAt(v, c, g) ==> KeepAt(w, c, g))
  {
    var w := v.(local := Bind(v.local, n, f, v.files[f].kind == Folder));
    BindSound(v, n, f);
    SameKinds(v, w);
    forall a | AgreeAt(v, a) && !AgreeAt(w, a) ensures Shares(v, a, n) {
      assert LocalFolder(v, f) && v.local[a] == f;
    }
    forall c, g | c != n && KeepAt(v, c, g) ensures KeepAt(w, c, g) {
      assert g == f ==> w.local[n] == g && AgreeAt(w, n);
      if g != f && !(c in v.local && v.local[c] == g) {
        var p :| p in v.local && v.local[p] == g && AgreeAt(v, p);
        assert AgreeAt(w, p) && w.local[p] == g;
      }
    }
  }

  lemma BindSound(v: Sides, n: Name, f: FileId)
    requires Sound(v) && n !in v.local && f in v.files
    ensures Sound(v.(local := Bind(v.local, n, f, v.files[f].kind == Folder)))
  {
    var w := v.(local := Bind(v.local, n, f, v.files[f].kind == Folder));
    forall a, b | a in w.local && b in w.local && w.local[a] == w.local[b] && LocalFolder(w, w.local[a]) ensures a == b {
      assert LocalFolder(v, w.local[a]);
    }
    forall a, b | a in w.remote && b in w.remote && w.remote[a] == w.remote[b] && RemoteFolder(w, w.remote[a])
      ensures a == b
    {
      assert RemoteFolder(v, v.remote[a]);
    }
  }

  /** A new local file for handle `h` of the master, which has none yet, disturbs nothing. */
  lemma FetchKeeps(v: Sides, h: Handle)
    requires Sound(v) && h in v.attrs && forall f :: f in v.files ==> v.files[f].master != Some(h)
    ensures var w := WithFile(v, Meta(Some(h), v.attrs[h].version, v.attrs[h].version, false, v.attrs[h].kind));
            && Sound(w) && (KindsAgree(v) ==> KindsAgree(w))
            && (forall a :: AgreeAt(v, a) ==> AgreeAt(w, a))
            && (forall c, g :: KeepAt(v, c, g) ==> KeepAt(w, c, g))
  {
    var w := WithFile(v, Meta(Some(h), v.attrs[h].version, v.attrs[h].version, false, v.attrs[h].kind));
    forall a, b | a in w.local && b in w.local && w.local[a] == w.local[b] && LocalFolder(w, w.local[a]) ensures a == b {
      assert LocalFolder(v, v.local[a]);
    }
    forall a, b | a in w.remote && b in w.remote && w.remote[a] == w.remote[b] && RemoteFolder(w, w.remote[a])
      ensures a == b
    {
      assert RemoteFolder(v, v.remote[a]);
    }
    if KindsAgree(v) {
      forall g | g in w.files && w.files[g].master.Some? && w.files[g].master.value in w.attrs
        ensures LocalFolder(w, g) <==> RemoteFolder(w, w.files[g].master.value)
      {
        if g != v.nextFile {
          assert LocalFolder(v, g) <==> RemoteFolder(v, v.files[g].master.value);
        }
      }
    }
    forall c, g | KeepAt(v, c, g) ensures KeepAt(w, c, g) {
      if !(c in v.local && v.local[c] == g) {
        var p :| p in v.local && v.local[p] == g && AgreeAt(v, p);
        assert AgreeAt(w, p);
      }
    }
  }

  // ----- the first loop -----

  /** The first loop has come to the entries of `todo`. */
  ghost predicate LocalMerged(v0: Sides, v: Sides, todo: set<Name>) {
    && v == v0.(local := v.local, files := v.files)
    && (forall n :: n in v.local <==> n in v0.local && (n in todo || !TakenAt(v0, n)))
    && (forall n :: n in v.local ==> v.local[n] == v0.local[n])
    && (forall f :: f in v.files ==> f in v0.files && v.files[f] == v0.files[f])
    && (forall f :: f in v0.files && f !in v0.local.Values ==> f in v.files)
  }

  /** What an entry is like does not depend on the entries done before. */
  lemma EntryAsBefore(v0: Sides, v: Sides, todo: set<Name>, n: Name)
    requires Sound(v0) && Sound(v) && LocalMerged(v0, v, todo) && n in v.local
    ensures ClashAt(v, n) <==> ClashAt(v0, n)
    ensures SameFileAt(v, n) <==> SameFileAt(v0, n)
    ensures TakenAt(v, n) <==> TakenAt(v0, n)
  {
  }

  lemma LocalMergedMore(v0: Sides, v: Sides, todo: set<Name>, n: Name, w: Sides)
    requires LocalMerged(v0, v, todo) && n in todo && n in v.local
    requires if TakenAt(v0, n) then UnnamedTo(v, n, w) else w == v
    ensures LocalMerged(v0, w, todo - {n})
  {
    assert v.local[n] in v0.local.Values;
  }

  /** Whether a name is in conflict after its entry was merged. */
  ghost predicate ConflictAt(v: Sides, n: Name, before: bool) {
    if ClashAt(v, n) then true
    else if SameFileAt(v, n) then DataConflict(v.files[v.local[n]], v.attrs[v.remote[n]])
    else before
  }

  /** The conflicts when the first loop has come to the entries of `todo`. */
  ghost predicate Conflicts(v0: Sides, todo: set<Name>, before: set<Name>, conflicts: set<Name>) {
    forall n :: n in conflicts <==> if n in todo then n in before else ConflictAt(v0, n, n in before)
  }

  /** The first loop has come to the entries of `todo`; `pending` are the names of the master left
      for the second loop, unless their entry stays, and `clashes` the names that clash. */
  ghost predicate FirstLoop(v0: Sides, v: Sides, todo: set<Name>, pending: set<Name>, clashes: set<Name>) {
    && LocalMerged(v0, v, todo) && todo <= v.local.Keys
    && (forall n :: n in clashes <==> n !in todo && ClashAt(v0, n))
    && (forall n :: n in pending <==> n in v.remote && (n in todo || n !in v.local))
  }

  /** What becomes of entry `n`. */
  lemma FirstLoopMore(v0: Sides, v: Sides, todo: set<Name>, pending: set<Name>, clashes: set<Name>,
                      n: Name, taken: bool, clash: bool, w: Sides)
    requires FirstLoop(v0, v, todo, pending, clashes) && n in todo
    requires (taken <==> TakenAt(v0, n)) && (clash <==> ClashAt(v0, n))
    requires if taken then UnnamedTo(v, n, w) else w == v
    ensures FirstLoop(v0, w, todo - {n}, if taken then pending else pending - {n},
                      if clash then clashes + {n} else clashes)
  {
    LocalMergedMore(v0, v, todo, n, w);
  }

  lemma ConflictsMore(v0: Sides, todo: set<Name>, before: set<Name>, conflicts: set<Name>, n: Name, after: set<Name>)
    requires Conflicts(v0, todo, before, conflicts) && n in todo
    requires n in after <==> ConflictAt(v0, n, n in conflicts)
    requires forall a :: a != n ==> (a in after <==> a in conflicts)
    ensures Conflicts(v0, todo - {n}, before, after)
  {
  }

  /** The conflicts after a merge, in versions: a clash is in conflict, and a name that stands for
      the same file of the same kind on both sides exactly when the file is regular, changed here
      and changed on the master since it was last recorded. */
  lemma ConflictsInVersions(v: Sides, before: set<Name>, conflicts: set<Name>)
    requires Sound(v) && Conflicts(v, {}, before, conflicts)
    ensures forall n :: ClashAt(v, n) ==> n in conflicts
    ensures forall n :: n in v.local && n in v.remote && v.files[v.local[n]].master == Some(v.remote[n])
                        && v.files[v.local[n]].kind == v.attrs[v.remote[n]].kind ==>
              var m := v.files[v.local[n]];
              (n in conflicts <==> m.kind == Regular && m.localVersion > m.masterVersion
                                   && v.attrs[v.remote[n]].version > m.masterVersion)
  {
  }

  /** What the first loop leaves is not taken; it agrees, or clashes. */
  lemma LocalMergedKeeps(v0: Sides, v: Sides)
    requires Sound(v0) && Sound(v) && LocalMerged(v0, v, {})
    ensures forall n :: n in v.local ==> !TakenAt(v, n)
    ensures forall n :: AgreeAt(v, n) || ClashAt(v0, n) || n in v.remote.Keys - v.local.Keys
    ensures forall n :: n in v0.local && !TakenAt(v0, n) ==> n in v.local && KeepAt(v, n, v0.local[n])
    ensures forall n :: SameFileAt(v0, n) ==> AgreeAt(v, n)
  {
    forall n | n in v.local ensures !TakenAt(v, n) {
      EntryAsBefore(v0, v, {}, n);
    }
  }

  // ----- the second loop -----

  /** A local file that appeared in the second loop is what the master has. */
  ghost predicate NewIsAsMaster(v: Sides, f: FileId) {
    && f in v.files && v.files[f].master.Some? && v.files[f].master.value in v.attrs
    && v.files[f].kind == v.attrs[v.files[f].master.value].kind
    && v.files[f].localVersion == v.files[f].masterVersion == v.attrs[v.files[f].master.value].version
    && !v.files[f].dirty
  }

  /** The second loop has the names of `pending` still to do. */
  ghost predicate RemoteMerged(v0: Sides, v: Sides, pending: set<Name>, journal: seq<Entry>) {
    && v.remote == v0.remote && v.attrs == v0.attrs && v.nextHandle == v0.nextHandle
    && (forall f :: f in v0.files ==> f in v.files && v.files[f] == v0.files[f])
    && (forall f :: f in v.files && f !in v0.files ==> v0.nextFile <= f && NewIsAsMaster(v, f)) && v0.nextFile <= v.nextFile
    && (forall n :: n in v0.remote && n !in v0.local && n !in pending ==>
          if DelPending(journal, n) then n !in v.local else AgreeAt(v, n) || Crowded(v0, journal, n))
    && (forall n :: AgreeAt(v0, n) ==> AgreeAt(v, n))
    && (KindsAgree(v0) ==> KindsAgree(v))
    && (forall n :: n in v.local ==> if n in v0.local then v.local[n] == v0.local[n] else n in v0.remote && !DelPending(journal, n))
    && (forall c, f :: c in v0.local && KeepAt(v0, c, f) ==> KeepAt(v, c, f))
  }

  /** Name `n` of the master got a local entry. */
  ghost predicate EntryMerged(v: Sides, w: Sides, n: Name) {
    && w.remote == v.remote && w.attrs == v.attrs && w.nextHandle == v.nextHandle && AgreeAt(w, n)
    && (forall f :: f in v.files ==> f in w.files && w.files[f] == v.files[f])
    && (forall f :: f in w.files && f !in v.files ==> v.nextFile <= f && NewIsAsMaster(w, f)) && v.nextFile <= w.nextFile
    && (forall a :: AgreeAt(v, a) ==> AgreeAt(w, a) || Shares(v, a, n))
    && (KindsAgree(v) ==> KindsAgree(w))
    && (forall a :: a in w.local && a != n ==> a in v.local && w.local[a] == v.local[a])
    && (forall c, f :: c != n && KeepAt(v, c, f) ==> KeepAt(w, c, f))
  }

  /** A name that loses its agreement in the second loop was bound by it. */
  lemma LostIsCrowded(v0: Sides, v: Sides, pending: set<Name>, journal: seq<Entry>, a: Name, n: Name)
    requires Sound(v0) && Sound(v) && RemoteMerged(v0, v, pending, journal)
    requires forall c :: c in v0.local ==> !TakenAt(v0, c)
    requires n in v0.remote && n !in v0.local && !DelPending(journal, n)
    requires AgreeAt(v, a) && Shares(v, a, n)
    ensures a !in v0.local && Crowded(v0, journal, a)
  {
    SharedIsNoFolder(v, a, n);
    var f :| LocalFolder(v, f) && v.files[f].master == Some(v.remote[a]);
    assert f in v0.files || NewIsAsMaster(v, f);
    assert LocalFolder(v0, f) && Shares(v0, a, n);
    assert v.local[a] == f && !SameFileAt(v0, a);
    assert Left(v0, journal, a) && Left(v0, journal, n);
  }

  lemma RemoteMergedMore(v0: Sides, v: Sides, w: Sides, pending: set<Name>, n: Name, journal: seq<Entry>)
    requires Sound(v0) && Sound(v) && RemoteMerged(v0, v, pending, journal) && EntryMerged(v, w, n)
    requires forall c :: c in v0.local ==> !TakenAt(v0, c)
    requires n in v0.remote && n !in v0.local && !DelPending(journal, n)
    ensures RemoteMerged(v0, w, pending - {n}, journal)
  {
    AgreementsMore(v0, v, w, pending, n, journal);
    forall f | f in w.files && f !in v0.files ensures v0.nextFile <= f && NewIsAsMaster(w, f) {
      if f in v.files {
        assert NewIsAsMaster(v, f);
      }
    }
  }

  lemma AgreementsMore(v0: Sides, v: Sides, w: Sides, pending: set<Name>, n: Name, journal: seq<Entry>)
    requires Sound(v0) && Sound(v) && RemoteMerged(v0, v, pending, journal) && EntryMerged(v, w, n)
    requires forall c :: c in v0.local ==> !TakenAt(v0, c)
    requires n in v0.remote && n !in v0.local && !DelPending(journal, n)
    ensures forall a :: AgreeAt(v0, a) ==> AgreeAt(w, a)
    ensures forall a :: a in v0.remote && a !in v0.local && a !in pending - {n} ==>
              if DelPending(journal, a) then a !in w.local else AgreeAt(w, a) || Crowded(v0, journal, a)
  {
    forall a | AgreeAt(v, a) ensures AgreeAt(w, a) || (a !in v0.local && Crowded(v0, journal, a)) {
      if Shares(v, a, n) {
        LostIsCrowded(v0, v, pending, journal, a, n);
      }
    }
  }

  /** What a merge makes of the two listings. */
  ghost predicate Merged(v0: Sides, v: Sides, journal: seq<Entry>) {
    && v.remote == v0.remote && v.attrs == v0.attrs
    && (forall n :: AgreeAt(v, n) || ClashAt(v0, n) || DelPending(journal, n) || Crowded(v0, journal, n))
    && (forall n :: SameFileAt(v0, n) ==> AgreeAt(v, n))
    && (forall n :: DelPending(journal, n) && TakenAt(v0, n) ==> n !in v.local)
    && (forall n :: n in v0.local && !TakenAt(v0, n) ==> KeepAt(v, n, v0.local[n]))
    && (forall n :: n in v.local ==> n in v0.remote || (n in v0.local && !TakenAt(v0, n)))
    && (forall f :: f in v.files && f in v0.files ==> v.files[f] == v0.files[f])
    && (forall f :: f in v0.files && f !in v0.local.Values ==> f in v.files)
    && (forall f :: f in v.files && f !in v0.files ==> NewIsAsMaster(v, f))
    && (KindsAgree(v0) ==> KindsAgree(v))
    && v0.nextHandle == v.nextHandle
  }

  /** What a merge fetches is at the master's version and unmodified. */
  lemma FetchedVersions(v0: Sides, v: Sides, journal: seq<Entry>)
    requires Merged(v0, v, journal)
    ensures forall f :: f in v.files && f !in v0.files ==>
              !v.files[f].dirty && v.files[f].master.Some? && v.files[f].master.value in v.attrs
              && v.files[f].localVersion == v.files[f].masterVersion == v.attrs[v.files[f].master.value].version
  {
    assert forall f :: f in v.files && f !in v0.files ==> NewIsAsMaster(v, f);
  }

  /** An entry for a file that a merge fetched follows the master in the next merge: it never
      clashes, unless the versions of the file were changed in between. */
  lemma FetchedFollows(v0: Sides, v: Sides, journal: seq<Entry>, u: Sides, n: Name)
    requires Merged(v0, v, journal) && n in v.local && v.local[n] in v.files && v.local[n] !in v0.files
    requires Sound(u) && n in u.local && u.local[n] == v.local[n]
    requires u.files[u.local[n]].localVersion == v.files[v.local[n]].localVersion
    requires u.files[u.local[n]].masterVersion == v.files[v.local[n]].masterVersion
    ensures !ClashAt(u, n)
    ensures MasterOf(u, n) != u.files[u.local[n]].master ==> TakenAt(u, n)
  {
    assert NewIsAsMaster(v, v.local[n]);
  }

  /** Fewer files and the same master. */
  lemma SameKinds(v: Sides, w: Sides)
    requires w.attrs == v.attrs && forall f :: f in w.files ==> f in v.files && w.files[f] == v.files[f]
    ensures KindsAgree(v) ==> KindsAgree(w)
  {
    if KindsAgree(v) {
      forall f | f in w.files && w.files[f].master.Some? && w.files[f].master.value in w.attrs
        ensures LocalFolder(w, f) <==> RemoteFolder(w, w.files[f].master.value)
      {
        assert LocalFolder(v, f) <==> RemoteFolder(v, v.files[f].master.value);
      }
    }
  }

  /** A name crowded after the first loop was so before. */
  lemma CrowdedBefore(v0: Sides, w: Sides, journal: seq<Entry>, n: Name)
    requires Sound(v0) && Sound(w) && LocalMerged(v0, w, {}) && Crowded(w, journal, n)
    ensures Crowded(v0, journal, n)
  {
    LocalMergedKeeps(v0, w);
    var b :| Left(w, journal, b) && Shares(w, n, b);
    var f :| LocalFolder(w, f) && w.files[f].master == Some(w.remote[n]);
    assert LocalFolder(v0, f) && Shares(v0, n, b);
    assert Left(v0, journal, n) && Left(v0, journal, b);
  }

  lemma MergedBoth(v0: Sides, w: Sides, v: Sides, journal: seq<Entry>)
    requires Sound(v0) && Sound(w) && LocalMerged(v0, w, {}) && RemoteMerged(w, v, {}, journal)
    ensures Merged(v0, v, journal)
  {
    LocalMergedKeeps(v0, w);
    SameKinds(v0, w);
    forall n ensures AgreeAt(v, n) || ClashAt(v0, n) || DelPending(journal, n) || Crowded(v0, journal, n) {
      assert AgreeAt(w, n) || ClashAt(v0, n) || n in w.remote.Keys - w.local.Keys;
      if Crowded(w, journal, n) {
        CrowdedBefore(v0, w, journal, n);
      }
    }
    forall n | DelPending(journal, n) && TakenAt(v0, n) ensures n !in v.local {
      assert n !in w.local;
    }
  }

  /** The merge makes every name agree, but clashes and pending deletions, if and only if it
      never binds two names of the master to one local folder; said of folders without a name
      here, which nothing takes from this node before they are bound. */
  lemma MergeAgreesExactly(v0: Sides, v: Sides, journal: seq<Entry>)
    requires Sound(v0) && Sound(v) && Merged(v0, v, journal)
    requires forall f, n :: LocalFolder(v0, f) && Crowded(v0, journal, n) && v0.files[f].master == Some(v0.remote[n]) ==>
               f !in v0.local.Values
    ensures (forall n :: AgreeAt(v, n) || ClashAt(v0, n) || DelPending(journal, n))
            <==> (forall n :: !Crowded(v0, journal, n))
  {
    forall n | Crowded(v0, journal, n) ensures !forall m :: AgreeAt(v, m) || ClashAt(v0, m) || DelPending(journal, m) {
      var b :| Left(v0, journal, b) && Shares(v0, n, b);
      var f :| LocalFolder(v0, f) && v0.files[f].master == Some(v0.remote[n]);
      assert f in v.files && LocalFolder(v, f) && Shares(v, n, b);
      SharedDisagree(v, n, b);
      assert !ClashAt(v0, n) && !ClashAt(v0, b);
    }
  }

  /** Where a name is crowded, a folder stands for something else. */
  lemma CrowdedKinds(v: Sides, journal: seq<Entry>, n: Name)
    requires Sound(v) && Crowded(v, journal, n)
    ensures !KindsAgree(v)
  {
    var b :| Left(v, journal, b) && Shares(v, n, b);
    SharedIsNoFolder(v, n, b);
    var f :| LocalFolder(v, f) && v.files[f].master == Some(v.remote[n]);
    assert !(LocalFolder(v, f) <==> RemoteFolder(v, v.files[f].master.value));
  }

  /** A folder without a name here, whose handle the master gave to a regular file with two
      links: both names are crowded, so one of them ends missing. */
  lemma ReusedFolder() returns (v: Sides)
    ensures Sound(v) && v.local == map[] && v.files.Keys == {0} && v.files[0].kind == Folder
    ensures v.remote.Keys == {"x", "y"} && Crowded(v, [], "x") && Crowded(v, [], "y")
  {
    v := Sides(map[], map[0 := Meta(Some(7), 1, 1, false, Folder)], map["x" := 7, "y" := 7], map[7 := Attr(1, Regular)], 1, 8);
    assert LocalFolder(v, 0) && Shares(v, "x", "y") && Shares(v, "y", "x");
    assert Left(v, [], "x") && Left(v, [], "y");
  }

  /** Whatever the order, the merge there leaves a name that is missing and not in conflict. */
  lemma ReusedFolderMissing(v: Sides, w: Sides)
    requires Sound(v) && v.local == map[] && Crowded(v, [], "x") && Sound(w) && Merged(v, w, [])
    ensures exists n :: n in w.remote && !AgreeAt(w, n) && !ConflictAt(v, n, false)
  {
    MergeAgreesExactly(v, w, []);
    var n :| !AgreeAt(w, n);
    assert n in w.remote;
  }

  /** `f` is the local file for handle `h`; if there was none it is new, and disturbs nothing. */
  ghost predicate FileFound(v: Sides, w: Sides, h: Handle, f: FileId) {
    && w == v.(files := w.files, nextFile := w.nextFile)
    && f in w.files && w.files[f].master == Some(h)
    && (forall g :: g in v.files ==> g in w.files && w.files[g] == v.files[g])
    && (forall g :: g in w.files && g !in v.files ==> g == v.nextFile && NewIsAsMaster(w, g)) && v.nextFile <= w.nextFile
    && (forall a :: AgreeAt(v, a) ==> AgreeAt(w, a))
    && (KindsAgree(v) ==> KindsAgree(w))
    && (forall c, g :: KeepAt(v, c, g) ==> KeepAt(w, c, g))
  }

  /** Where folders stand for folders, agreement at the other names is all that is needed. */
  lemma AgreedUncrowded(v0: Sides, v: Sides)
    requires Sound(v0) && KindsAgree(v0) && Sound(v) && KindsAgree(v) && forall n :: AgreeAt(v, n) || Crowded(v0, [], n)
    ensures Explains(v, [])
  {
    forall n ensures AgreeAt(v, n) {
      if Crowded(v0, [], n) {
        CrowdedKinds(v0, [], n);
      }
    }
    AgreedExplains(v);
  }

  // ----- what is left after a merge -----

  /** A name whose deletion was refused and that was added again for the file the master has,
      but of another kind: the merge takes the entry and skips the name. */
  ghost predicate Unnoticed(v: Sides, journal: seq<Entry>, n: Name) {
    DelPending(journal, n) && AgreeAt(v, n) && TakenAt(v, n)
  }

  /** After a merge every name agrees or is in conflict, except the unnoticed ones, which
      disagree, and the crowded ones. */
  lemma MergedOrNoted(v0: Sides, v: Sides, journal: seq<Entry>, before: set<Name>, conflicts: set<Name>)
    requires Merged(v0, v, journal) && Conflicts(v0, {}, before, conflicts)
    requires forall n :: DelPending(journal, n) ==> n in before || AgreeAt(v0, n)
    ensures forall n :: AgreeAt(v, n) || n in conflicts || Unnoticed(v0, journal, n) || Crowded(v0, journal, n)
    ensures forall n :: Unnoticed(v0, journal, n) ==> !AgreeAt(v, n) && (n in conflicts <==> n in before)
  {
  }

  function OtherKind(): Sides {
    Sides(map["a" := 0], map[0 := Meta(Some(7), 1, 1, false, Special(0))], map["a" := 7], map[7 := Attr(2, Regular)], 2, 8)
  }

  function DeletedAndAdded(): seq<Entry> {
    [Entry(false, "a", 1, Some(7), 1), Entry(true, "a", 0, Some(7), 1)]
  }

  /** A regular file was deleted here and changed on the master, and a special file with the
      same handle got its name: the deletion stays, its conflict is cancelled by the addition,
      and after the merge the name is missing and not in conflict. */
  lemma UnnoticedDeletion(run: seq<Replay>)
    requires WholeReplay(run) && run[0].sides == OtherKind() && run[0].journal == DeletedAndAdded()
    ensures var end := run[|run| - 1]; Unnoticed(end.sides, end.journal, "a") && "a" !in end.conflicts
  {
    ReplayFrames(run);
    var d := DeletedAndAdded()[0];
    assert ReplaySteps(run[0], run[1]) && ReplaySteps(run[1], run[2]);
    assert Contested(run[0].sides, d) && run[1].sides == OtherKind() && run[1].journal == DeletedAndAdded();
    assert run[2].sides == OtherKind() && run[2].journal[0] == d;
  }

  lemma FoundAndBound(v: Sides, u: Sides, n: Name, f: FileId)
    requires Sound(v) && Sound(u) && n in v.remote && n !in v.local && FileFound(v, u, v.remote[n], f)
    ensures var w := u.(local := Bind(u.local, n, f, u.files[f].kind == Folder)); Sound(w) && EntryMerged(v, w, n)
  {
    BindKeeps(u, n, f);
    forall a | Shares(u, a, n) ensures Shares(v, a, n) {
      SharedIsNoFolder(u, a, n);
      var g :| LocalFolder(u, g) && u.files[g].master == Some(u.remote[a]);
      assert g in v.files || NewIsAsMaster(u, g);
      assert LocalFolder(v, g);
    }
  }

  /** Names changed here, and files may have died. */
  ghost predicate OnlyNames(v: Sides, w: Sides) {
    w == v.(local := w.local, files := w.files) && forall f :: f in w.files ==> f in v.files && w.files[f] == v.files[f]
  }

  /** Two names of one file. */
  predicate Twins(v: Sides, a: Name, b: Name) {
    a in v.local && b in v.local && v.local[a] == v.local[b]
  }

  lemma NoNameYet(v: Sides)
    requires Sound(v)
    ensures v.nextFile !in v.local.Values
  {
  }

  /** A folder without its name has none. */
  lemma OnlyName(v: Sides, n: Name)
    requires Sound(v) && n in v.local
    ensures v.files[v.local[n]].kind == Folder ==> v.local[n] !in (v.local - {n}).Values
  {
    if v.files[v.local[n]].kind == Folder {
      forall a | a in v.local && a != n ensures v.local[a] != v.local[n] {
        assert LocalFolder(v, v.local[n]);
      }
    }
  }

  /** What can happen to a directory. */
  datatype Event =
    | Creates(name: Name, kind: Kind)
    | Links(name: Name, file: FileId)
    | Unlinks(name: Name, last: bool)
    | Renames(from: Name, to: Name, last: bool)
    | Others(sides: Sides, version: nat)
    | Beyond(sides: Sides)
    | Synchronizes

  function Synchronisations(events: seq<Event>): nat {
    if events == [] then 0
    else Synchronisations(events[..|events| - 1]) + if events[|events| - 1].Synchronizes? then 1 else 0
  }

  /** A replay, and what was known of the master when it began. */
  datatype Visit = Visit(run: seq<Replay>, known: map<Handle, nat>)

  /** A cached directory: both sides, the journal, the names shown as conflicts, and the
      metadata of the directory itself. */
  class Directory {
    var sides: Sides
    var journal: seq<Entry>
    var conflicts: set<Name>
    var localVersion: nat
    var masterVersion: nat
    var complete: bool

    ghost predicate Valid()
      reads this
    {
      Sound(sides) && Optimised(journal)
    }

    /** The journal tells how the two listings differ. */
    ghost predicate Explained()
      reads this
    {
      Explains(sides, journal)
    }

    /** A directory just created from an entry of the master's: no names yet, and not complete,
        so that nothing has to be explained. */
    constructor (v: Sides, version: nat)
      requires Sound(v) && v.local == map[]
      ensures Valid() && sides == v && journal == [] && conflicts == {}
      ensures !complete && localVersion == masterVersion == version
    {
      sides, journal, conflicts := v, [], {};
      localVersion, masterVersion, complete := version, version, false;
    }

    // ----- local operations -----

    /** Insert an entry into the journal. */
    method Record(e: Entry)
      requires Optimised(journal)
      modifies this`journal
      ensures Optimised(journal) && journal == Recorded(old(journal), e)
      ensures !e.add && AddPending(old(journal), e.name) ==> journal == Without(old(journal), true, e.name)
      ensures e.add || !AddPending(old(journal), e.name) ==> journal == Without(old(journal), e.add, e.name) + [e]
    {
      RecordedOptimised(journal, e);
      RecordedExactly(journal, e);
      if !e.add {
        var undone := Find(journal, true, e.name);
        if undone < |journal| {
          journal := RemoveAt(journal, undone);
          return;
        }
      }
      var same := Find(journal, e.add, e.name);
      if same < |journal| {
        journal := RemoveAt(journal, same);
      }
      journal := journal + [e];
    }

    /** Create a file, which the master does not know. */
    method Create(n: Name, kind: Kind) returns (f: FileId)
      requires Valid() && n !in sides.local
      modifies this`sides, this`journal, this`localVersion
      ensures Valid() && f !in old(sides).files
      ensures var w := WithFile(old(sides), Meta(None, 1, 0, false, kind));
              && f == old(sides).nextFile && sides == w.(local := w.local[n := f]) && localVersion == old(localVersion) + 1
              && Truthful(w, old(journal), journal)
      ensures journal == Without(old(journal), true, n) + [Entry(true, n, f, None, 0)]
      ensures old(Explained()) ==> Explained()
    {
      var meta := Meta(None, 1, 0, false, kind);
      f := sides.nextFile;
      if Explained() {
        WithFileExplained(sides, journal, meta);
      }
      WithFileSound(sides, meta);
      NoNameYet(sides);
      sides := WithFile(sides, meta);
      Link(n, f);
    }

    /** Name a file of this node: a hard link, or a file moved here from another directory. */
    method Link(n: Name, f: FileId)
      requires Valid() && n !in sides.local && f in sides.files
      requires sides.files[f].kind == Folder ==> f !in sides.local.Values
      modifies this`sides, this`journal, this`localVersion
      ensures Valid() && sides == old(sides).(local := old(sides).local[n := f]) && localVersion == old(localVersion) + 1
      ensures var m := sides.files[f];
              journal == Without(old(journal), true, n) + [Entry(true, n, f, m.master, m.masterVersion)]
      ensures Truthful(old(sides), old(journal), journal)
      ensures old(Explained()) ==> Explained()
    {
      Add(n, f);
      localVersion := localVersion + 1;
    }

    /** The name and its entry. */
    method Add(n: Name, f: FileId)
      requires Valid() && n !in sides.local && f in sides.files
      requires sides.files[f].kind == Folder ==> f !in sides.local.Values
      modifies this`sides, this`journal
      ensures Valid() && sides == old(sides).(local := old(sides).local[n := f])
      ensures var m := sides.files[f];
              journal == Without(old(journal), true, n) + [Entry(true, n, f, m.master, m.masterVersion)]
      ensures Truthful(old(sides), old(journal), journal)
      ensures old(Explained()) ==> Explained()
    {
      if Explained() {
        LinkExplained(sides, journal, n, f);
      }
      RecordedTruthful(sides, journal, EntryFor(sides, true, n, f));
      LinkSound(sides, n, f);
      var e := EntryFor(sides, true, n, f);
      sides := sides.(local := sides.local[n := f]);
      Record(e);
    }

    /** Take a name away: a deletion, or a move to another directory.  The file is dead if this
        was its last name on the node. */
    method Unlink(n: Name, last: bool) returns (dead: bool)
      requires Valid() && n in sides.local
      modifies this`sides, this`journal, this`localVersion
      ensures dead <==> last && old(sides).local[n] !in (old(sides).local - {n}).Values
      ensures Valid() && sides == Unnamed(old(sides), n, dead) && localVersion == old(localVersion) + 1
      ensures AddPending(old(journal), n) ==> journal == Without(old(journal), true, n)
      ensures var f, m := old(sides).local[n], old(sides).files[old(sides).local[n]];
              !AddPending(old(journal), n) ==>
                journal == Without(old(journal), false, n) + [Entry(false, n, f, m.master, m.masterVersion)]
      ensures Truthful(old(sides), old(journal), journal)
      ensures old(Explained()) ==> Explained()
    {
      dead := Drop(n, last);
      localVersion := localVersion + 1;
    }

    /** The name and its entry. */
    method Drop(n: Name, last: bool) returns (dead: bool)
      requires Valid() && n in sides.local
      modifies this`sides, this`journal
      ensures dead <==> last && old(sides).local[n] !in (old(sides).local - {n}).Values
      ensures Valid() && sides == Unnamed(old(sides), n, dead)
      ensures AddPending(old(journal), n) ==> journal == Without(old(journal), true, n)
      ensures var f, m := old(sides).local[n], old(sides).files[old(sides).local[n]];
              !AddPending(old(journal), n) ==>
                journal == Without(old(journal), false, n) + [Entry(false, n, f, m.master, m.masterVersion)]
      ensures Truthful(old(sides), old(journal), journal)
      ensures old(Explained()) ==> Explained()
    {
      var f := sides.local[n];
      RecordedTruthful(sides, journal, EntryFor(sides, false, n, f));
      dead := last && f !in (sides.local - {n}).Values;
      UnnamedSound(sides, n, dead);
      if Explained() {
        UnlinkExplained(sides, journal, n, dead);
      }
      var e := EntryFor(sides, false, n, f);
      sides := Unnamed(sides, n, dead);
      Record(e);
    }

    /** Move a name within the directory, over another one if there is one.  The journal goes
        on explaining the difference unless the two names are hard links of one file: then
        the file system leaves both names, but the journal has the move. */
    method Rename(from: Name, to: Name, last: bool)
      requires Valid() && from in sides.local && from != to
      modifies this`sides, this`journal, this`localVersion
      ensures Valid()
      ensures old(Twins(sides, from, to)) ==> sides == old(sides)
      ensures old(!Twins(sides, from, to)) ==>
                sides.local == (old(sides).local - {from})[to := old(sides).local[from]]
      ensures old(Explained()) ==> (Explained() <==> old(!Twins(sides, from, to)))
      ensures OnlyNames(old(sides), sides) && localVersion == old(localVersion) + 2
      ensures forall g :: g in old(sides).files && !(to in old(sides).local && old(sides).local[to] == g) ==> g in sides.files
      ensures Truthful(old(sides), old(journal), journal)
    {
      var f := sides.local[from];
      if to in sides.local && sides.local[to] == f {
        RenameTwin(from, to);
      } else {
        Release(from);
        ghost var v, j := sides, journal;
        Replace(to, f, last);
        TruthfulMore(old(sides), old(journal), j, v, journal);
      }
      localVersion := localVersion + 2;
    }

    /** Take a name from a file that lives on. */
    method Release(n: Name)
      requires Valid() && n in sides.local
      modifies this`sides, this`journal
      ensures Valid() && sides == Unnamed(old(sides), n, false)
      ensures sides.files[old(sides).local[n]].kind == Folder ==> old(sides).local[n] !in sides.local.Values
      ensures Truthful(old(sides), old(journal), journal)
      ensures old(Explained()) ==> Explained()
    {
      OnlyName(sides, n);
      var _ := Drop(n, false);
    }

    /** Name a file, whatever the name stood for. */
    method Replace(n: Name, f: FileId, last: bool)
      requires Valid() && f in sides.files && (n in sides.local ==> sides.local[n] != f)
      requires sides.files[f].kind == Folder ==> f !in sides.local.Values
      modifies this`sides, this`journal
      ensures Valid() && sides.local == old(sides).local[n := f] && OnlyNames(old(sides), sides)
      ensures forall g :: g in old(sides).files && !(n in old(sides).local && old(sides).local[n] == g) ==> g in sides.files
      ensures Truthful(old(sides), old(journal), journal)
      ensures old(Explained()) ==> Explained()
    {
      MakeRoom(n, f, last);
      ghost var v, j := sides, journal;
      Add(n, f);
      TruthfulMore(old(sides), old(journal), j, v, journal);
      assert (old(sides).local - {n})[n := f] == old(sides).local[n := f];
    }

    /** Take away a name that another file is about to get, if it stands for a file. */
    method MakeRoom(n: Name, f: FileId, last: bool)
      requires Valid() && f in sides.files && (n in sides.local ==> sides.local[n] != f)
      modifies this`sides, this`journal
      ensures Valid() && sides.local == old(sides).local - {n} && OnlyNames(old(sides), sides)
      ensures f in sides.files && sides.files[f] == old(sides).files[f]
      ensures f !in old(sides).local.Values ==> f !in sides.local.Values
      ensures forall g :: g in old(sides).files && !(n in old(sides).local && old(sides).local[n] == g) ==> g in sides.files
      ensures Truthful(old(sides), old(journal), journal)
      ensures old(Explained()) ==> Explained()
    {
      if n in sides.local {
        var _ := Drop(n, last);
      }
    }

    /** What is recorded for a move that the file system does not make. */
    method RenameTwin(from: Name, to: Name)
      requires Valid() && from in sides.local && from != to && Twins(sides, from, to)
      modifies this`journal
      ensures Valid() && Truthful(sides, old(journal), journal)
      ensures old(Explained()) ==> !Explained()
    {
      var f := sides.local[from];
      ghost var j := journal;
      RecordTwin(false, from, f, j);
      RecordTwin(false, to, f, j);
      RecordTwin(true, to, f, j);
      if Explains(sides, j) {
        TwinUnexplained(sides, j, from, to);
      }
    }

    /** One entry of it, others having been recorded after `before`. */
    method RecordTwin(add: bool, n: Name, f: FileId, ghost before: seq<Entry>)
      requires Optimised(journal) && f in sides.files && Truthful(sides, before, journal)
      modifies this`journal
      ensures Optimised(journal) && journal == Recorded(old(journal), EntryFor(sides, add, n, f))
      ensures Truthful(sides, before, journal)
    {
      RecordedTruthful(sides, journal, EntryFor(sides, add, n, f));
      TruthfulMore(sides, before, journal, sides, Recorded(journal, EntryFor(sides, add, n, f)));
      Record(EntryFor(sides, add, n, f));
    }

    // ----- merging the listings -----

    /** Take a local name away.  The file itself lives on when it has other names or is
        moved to the shadow directory, as `survives` tells. */
    method Unname(n: Name, survives: bool)
      requires Valid() && n in sides.local
      modifies this`sides
      ensures Valid() && UnnamedTo(old(sides), n, sides) && sides.local == old(sides).local - {n}
      ensures sides.files == if survives || old(sides).local[n] in (old(sides).local - {n}).Values then old(sides).files
                             else old(sides).files - {old(sides).local[n]}
    {
      var dead := !survives && sides.local[n] !in (sides.local - {n}).Values;
      UnnamedSound(sides, n, dead);
      sides := Unnamed(sides, n, dead);
    }

    /** The first loop of the update: one local entry.  It stays, in conflict or agreeing with
        the master, or it is taken away, exactly as `ClashAt` and `TakenAt` say.  When it is
        taken away although the master has the name, the name is left for the second loop. */
    method MergeLocalEntry(n: Name, survives: bool) returns (clash: bool, taken: bool)
      requires Valid() && n in sides.local
      modifies this`sides, this`conflicts
      ensures Valid()
      ensures clash <==> old(ClashAt(sides, n))
      ensures taken <==> old(TakenAt(sides, n))
      ensures if taken then UnnamedTo(old(sides), n, sides) else sides == old(sides)
      ensures taken ==> sides.files == if survives || old(sides).local[n] in (old(sides).local - {n}).Values then old(sides).files
                                       else old(sides).files - {old(sides).local[n]}
      ensures forall a :: a != n ==> (a in conflicts <==> a in old(conflicts))
      ensures n in conflicts <==> old(ConflictAt(sides, n, n in conflicts))
    {
      var meta := sides.files[sides.local[n]];
      clash, taken := false, false;
      if n in sides.remote {
        var h := sides.remote[n];
        if meta.master == Some(h) {
          if meta.kind != sides.attrs[h].kind {
            taken := true;
          } else if DataConflict(meta, sides.attrs[h]) {
            conflicts := conflicts + {n};
          } else {
            conflicts := conflicts - {n};
          }
        } else if meta.localVersion == meta.masterVersion {
          taken := true;
        } else {
          clash := true;
        }
      } else if meta.master.Some? && meta.localVersion != meta.masterVersion {
        clash := true;
      } else {
        taken := true;
      }
      if taken {
        Unname(n, survives);
      }
      if clash {
        conflicts := conflicts + {n};
      }
    }

    /** The first loop.  Returns the names left for the second loop and the names put in
        conflict.  Exactly the entries that `TakenAt` tells are gone. */
    method MergeLocal() returns (pending: set<Name>, clashes: set<Name>)
      requires Valid()
      modifies this`sides, this`conflicts
      ensures Valid() && FirstLoop(old(sides), sides, {}, pending, clashes)
      ensures Conflicts(old(sides), {}, old(conflicts), conflicts)
    {
      var todo := sides.local.Keys;
      ghost var v0 := sides;
      pending, clashes := sides.remote.Keys, {};
      while todo != {}
        invariant Valid() && FirstLoop(v0, sides, todo, pending, clashes)
        invariant Conflicts(v0, todo, old(conflicts), conflicts)
        decreases todo
      {
        todo, pending, clashes := MergeNext(v0, todo, pending, clashes, old(conflicts));
      }
    }

    /** One entry of the first loop. */
    method MergeNext(ghost v0: Sides, todo0: set<Name>, pending0: set<Name>, clashes0: set<Name>, ghost before: set<Name>)
      returns (todo: set<Name>, pending: set<Name>, clashes: set<Name>)
      requires Valid() && Sound(v0) && FirstLoop(v0, sides, todo0, pending0, clashes0) && todo0 != {}
      requires Conflicts(v0, todo0, before, conflicts)
      modifies this`sides, this`conflicts
      ensures Valid() && todo < todo0 && FirstLoop(v0, sides, todo, pending, clashes)
      ensures Conflicts(v0, todo, before, conflicts)
    {
      var n :| n in todo0;
      todo, pending, clashes := todo0 - {n}, pending0, clashes0;
      var survives := *;
      ghost var v, marked := sides, conflicts;
      EntryAsBefore(v0, v, todo0, n);
      var clash, taken := MergeLocalEntry(n, survives);
      if clash {
        clashes := clashes + {n};
      }
      if !taken {
        pending := pending - {n};
      }
      FirstLoopMore(v0, v, todo0, pending0, clashes0, n, taken, clash, sides);
      ConflictsMore(v0, todo0, before, marked, n, conflicts);
    }

    /** The second loop of the update: one name of the master that has no local entry yet.
        A known file is moved or linked there, otherwise a local file is created. */
    method MergeRemoteEntry(n: Name)
      requires Valid() && n in sides.remote && n !in sides.local
      modifies this`sides
      ensures Valid() && EntryMerged(old(sides), sides, n)
    {
      ghost var v := sides;
      var f := FileFor(sides.remote[n]);
      FoundAndBound(v, sides, n, f);
      sides := sides.(local := Bind(sides.local, n, f, sides.files[f].kind == Folder));
    }

    /** The local file for handle `h` of the master, made if there is none. */
    method FileFor(h: Handle) returns (f: FileId)
      requires Valid() && h in sides.attrs
      modifies this`sides
      ensures Valid() && FileFound(old(sides), sides, h, f)
    {
      var holders := set g | g in sides.files && sides.files[g].master == Some(h);
      if holders != {} {
        f :| f in holders;
        return;
      }
      assert forall g :: g in sides.files && sides.files[g].master == Some(h) ==> g in holders;
      FetchKeeps(sides, h);
      f := sides.nextFile;
      var attr := sides.attrs[h];
      sides := WithFile(sides, Meta(Some(h), attr.version, attr.version, false, attr.kind));
    }

    /** The second loop: the names of the master left over from the first. */
    method MergeRemote(pending0: set<Name>)
      requires Valid() && pending0 == sides.remote.Keys - sides.local.Keys
      requires forall c :: c in sides.local ==> !TakenAt(sides, c)
      modifies this`sides
      ensures Valid() && RemoteMerged(old(sides), sides, {}, journal)
    {
      var pending := pending0;
      ghost var v0 := sides;
      while pending != {}
        invariant Valid() && pending <= pending0
        invariant forall n :: n in pending ==> n !in sides.local
        invariant RemoteMerged(v0, sides, pending, journal)
        decreases pending
      {
        var n :| n in pending;
        if !DelPending(journal, n) {
          ghost var v := sides;
          MergeRemoteEntry(n);
          RemoteMergedMore(v0, v, sides, pending, n, journal);
        }
        pending := pending - {n};
      }
    }

    /** Merge the two listings.  The result agrees with the master at every name, except
        those put in conflict now, those whose deletion is itself in conflict, and those that
        share a local folder.  A local file keeps its name, or follows the master's renaming,
        unless `TakenAt` tells that its entry goes; what is said of locally modified entries
        is `ModifiedTaken`, and of shared folders `MergeAgreesExactly`. */
    method MergeListings() returns (clashes: set<Name>)
      requires Valid()
      modifies this`sides, this`conflicts
      ensures Valid() && Merged(old(sides), sides, journal)
      ensures Conflicts(old(sides), {}, old(conflicts), conflicts)
      ensures forall n :: n in clashes <==> ClashAt(old(sides), n)
      ensures var v := old(sides);
              forall n :: n in v.local && n in v.remote && v.files[v.local[n]].master == Some(v.remote[n])
                          && v.files[v.local[n]].kind == v.attrs[v.remote[n]].kind ==>
                var m := v.files[v.local[n]];
                (n in conflicts <==> m.kind == Regular && m.localVersion > m.masterVersion
                                     && v.attrs[v.remote[n]].version > m.masterVersion)
    {
      var pending;
      pending, clashes := MergeLocal();
      ghost var w := sides;
      LocalMergedKeeps(old(sides), w);
      MergeRemote(pending);
      MergedBoth(old(sides), w, sides, journal);
      ConflictsInVersions(old(sides), old(conflicts), conflicts);
      assert forall n :: n in clashes <==> n !in {} && ClashAt(old(sides), n);
    }

    // ----- replaying the journal -----

    /** Replay the addition of a name.  It stays in the journal exactly when the name stands
        for something else on the master; `sent` says that the master was changed. */
    method ReplayAdd(e: Entry) returns (keep: bool, sent: bool)
      requires Valid() && e.add
      modifies this`sides, this`conflicts
      ensures Valid() && Replayed(old(sides), e, sides)
      ensures keep <==> Doubled(old(sides), e)
      ensures sent <==> sides.remote != old(sides).remote
      ensures var v := old(sides);
              e.name in v.local && e.name in v.remote ==>
                var m := v.files[v.local[e.name]];
                if m.master != Some(v.remote[e.name]) then keep && e.name in conflicts
                else !keep && (e.name in conflicts <==>
                       e.name in old(conflicts) && m.kind == Regular && m.localVersion != m.masterVersion
                       && v.attrs[v.remote[e.name]].version != m.masterVersion)
      ensures ConflictsAfter(old(sides), e, old(conflicts), conflicts)
    {
      var n := e.name;
      keep, sent := false, false;
      if n !in sides.local {
        return;
      }
      var meta := sides.files[sides.local[n]];
      if n in sides.remote {
        var attr := sides.attrs[sides.remote[n]];
        if meta.master == Some(sides.remote[n]) {
          if meta.kind != Regular || meta.localVersion == meta.masterVersion || attr.version == meta.masterVersion {
            conflicts := conflicts - {n};
          }
        } else {
          conflicts := conflicts + {n};
          keep := true;
        }
      } else {
        conflicts := conflicts - {n};
        sent := ReplayNew(e);
      }
    }

    /** Replay the addition of a name the master does not have: create the file there, link
        or move it there, or drop the name. */
    method ReplayNew(e: Entry) returns (sent: bool)
      requires Valid() && e.add && e.name in sides.local && e.name !in sides.remote
      modifies this`sides
      ensures Valid() && Replayed(old(sides), e, sides)
      ensures sent <==> sides.remote != old(sides).remote
      ensures e.name !in sides.local <==> Drops(old(sides), e)
    {
      var n := e.name;
      ghost var v := sides;
      if sides.files[sides.local[n]].master == None {
        sides := Created(sides, n);
        sent := true;
        assert n in sides.remote;
      } else if e.master != None && e.master.value in sides.attrs {
        sides := Moved(sides, n, e.master.value);
        sent := true;
        assert n in sides.remote;
      } else {
        var survives := *;
        Unname(n, survives);
        sent := false;
      }
      ReplayedSound(v, e, sides);
    }

    /** Replay the deletion of a name.  The entry stays exactly when the file is gone here
        and was changed on the master: a delete-modify conflict.  The file goes from the
        master too, if it is gone here and has no other name there. */
    method ReplayDel(e: Entry, elsewhere: bool) returns (keep: bool, sent: bool)
      requires Valid() && !e.add
      modifies this`sides, this`conflicts
      ensures Valid() && Replayed(old(sides), e, sides)
      ensures keep <==> Contested(old(sides), e)
      ensures sent <==> sides.remote != old(sides).remote
      ensures sent ==> sides.remote == old(sides).remote - {e.name}
      ensures sent ==> sides.attrs == if e.file in old(sides).files || elsewhere || e.master.value in sides.remote.Values
                                      then old(sides).attrs else old(sides).attrs - {e.master.value}
      ensures ConflictsAfter(old(sides), e, old(conflicts), conflicts)
    {
      var n, v := e.name, sides;
      keep, sent := false, false;
      var localExists := e.file in sides.files;
      if n in sides.remote {
        var h := sides.remote[n];
        if e.master == Some(h) {
          var attr := sides.attrs[h];
          if !localExists && attr.kind == Regular && e.masterVersion != attr.version {
            conflicts := conflicts + {n};
            keep := true;
          } else {
            sides := DelSent(v, n, !localExists && !elsewhere && h !in (v.remote - {n}).Values);
            sent := true;
            assert n !in sides.remote;
          }
        } else {
          conflicts := conflicts - {n};
        }
      } else {
        conflicts := conflicts - {n};
      }
      ReplayedSound(v, e, sides);
    }

    /** Replay one entry. */
    method ReplayEntry(e: Entry, elsewhere: bool) returns (keep: bool, sent: bool)
      requires Valid()
      modifies this`sides, this`conflicts
      ensures Valid() && Replayed(old(sides), e, sides)
      ensures keep <==> Contested(old(sides), e) || Doubled(old(sides), e)
      ensures sent <==> sides.remote != old(sides).remote
      ensures ConflictsAfter(old(sides), e, old(conflicts), conflicts)
    {
      if e.add {
        keep, sent := ReplayAdd(e);
      } else {
        keep, sent := ReplayDel(e, elsewhere);
      }
    }

    ghost function ReplayState(p: nat, increase: nat): Replay
      reads this
    {
      Replay(sides, journal, p, conflicts, increase)
    }

    /** Replay the whole journal, taking out what is done.  `run` are the states gone through,
        and `increase` counts the changes of the master's listing.  What every run comes to is
        `ReplayFrames`, `ReplayNotes` and `ReplayExplained`: names are only lost where the journal
        tells, what stays in the journal is in conflict, and if the journal explained every
        difference between the two listings, the local one wins, exactly as `Reintegrated`
        says. */
    method ReplayJournal() returns (increase: nat, ghost run: seq<Replay>)
      requires Valid()
      modifies this`sides, this`conflicts, this`journal
      ensures Valid() && ReplayRun(run)
      ensures run[0] == old(ReplayState(0, 0)) && run[|run| - 1] == ReplayState(|journal|, increase)
    {
      var p: nat := 0;
      increase := 0;
      run := [ReplayState(0, 0)];
      while p < |journal|
        invariant Valid() && p <= |journal| && ReplayRun(run)
        invariant run[0] == old(ReplayState(0, 0)) && run[|run| - 1] == ReplayState(p, increase)
        decreases |journal| - p
      {
        p, increase := ReplayAt(p, increase);
        run := run + [ReplayState(p, increase)];
      }
    }

    /** Replay the entry at `p0`. */
    method ReplayAt(p0: nat, increase0: nat) returns (p: nat, increase: nat)
      requires Valid() && p0 < |journal|
      modifies this`sides, this`conflicts, this`journal
      ensures Valid() && ReplaySteps(old(ReplayState(p0, increase0)), ReplayState(p, increase))
    {
      p, increase := p0, increase0;
      var elsewhere := *;
      var keep, sent := ReplayEntry(journal[p], elsewhere);
      if keep {
        p := p + 1;
      } else {
        RemovedOptimised(journal, p);
        journal := RemoveAt(journal, p);
      }
      if sent {
        increase := increase + 1;
      }
    }

    // ----- versions -----

    /** Settle the versions after `increase` changes were sent, the master being at `attr`.
        Returns what the master's version is increased by; it is at least 0.  With nobody
        else's change all three versions become equal, at the larger of the two sides;
        otherwise the local version stays at or above both others, and strictly above them
        while the journal holds conflicts. */
    method SettleVersions(increase: nat, attr: nat) returns (bump: nat)
      modifies this`localVersion, this`masterVersion
      ensures attr == old(masterVersion) + increase ==>
                localVersion == masterVersion == attr + bump && localVersion >= old(localVersion)
                && (bump == 0 || localVersion == old(localVersion))
      ensures attr != old(masterVersion) + increase ==>
                && bump == 0 && masterVersion == old(masterVersion) + increase
                && localVersion >= masterVersion && localVersion >= attr && localVersion >= old(localVersion)
                && (journal != [] ==> localVersion > masterVersion && localVersion > attr)
                && (localVersion == old(localVersion)
                    || localVersion == (if attr > masterVersion then attr else masterVersion) + if journal != [] then 1 else 0)
    {
      var version := attr;
      if attr == masterVersion + increase {
        if localVersion > attr {
          version := localVersion;
        }
        localVersion := version;
        masterVersion := version;
      } else {
        masterVersion := masterVersion + increase;
        if journal != [] {
          if localVersion <= masterVersion {
            localVersion := masterVersion + 1;
          }
          if localVersion <= version {
            localVersion := version + 1;
          }
        } else {
          if localVersion < masterVersion {
            localVersion := masterVersion;
          }
          if localVersion < version {
            localVersion := version;
          }
        }
      }
      bump := version - attr;
    }

    /** Update the directory from a master at version `attr`.  The listings are merged unless
        the directory is complete and at that version already.  A merge without clashes and
        with no journal left marks the directory complete, and then every name agrees. */
    method UpdateDir(attr: nat) returns (merged: bool)
      requires Valid()
      modifies this`sides, this`conflicts, this`localVersion, this`masterVersion, this`complete
      ensures Valid()
      ensures merged <==> !(old(masterVersion) == attr && old(complete))
      ensures merged ==> Merged(old(sides), sides, journal)
      ensures !merged ==> sides == old(sides) && conflicts == old(conflicts) && masterVersion == attr && complete
      ensures merged ==> Conflicts(old(sides), {}, old(conflicts), conflicts)
      ensures masterVersion == attr || masterVersion == old(masterVersion)
      ensures merged && complete && masterVersion == attr ==>
                journal == [] && forall n :: AgreeAt(sides, n) || Crowded(old(sides), [], n)
      ensures merged && journal == [] && (forall n :: !ClashAt(old(sides), n)) ==>
                complete && localVersion == masterVersion == attr
    {
      if masterVersion == attr && complete {
        return false;
      }
      merged := true;
      var clashes := MergeListings();
      if journal == [] && clashes == {} {
        complete := true;
        localVersion, masterVersion := attr, attr;
      }
    }

    /** Reintegrate and update against a master directory at version `remoteVersion`.  The
        precondition is what the versions stand for: with the master where it was left, a
        complete directory differs from it only by the journal.  The run of the replay is
        given; without changes by others it decides everything, otherwise a merge follows.
        Afterwards the precondition holds again. */
    method Synchronize(remoteVersion: nat) returns (version: nat, merged: bool, ghost run: seq<Replay>)
      requires Valid()
      requires complete && remoteVersion == masterVersion ==> Explained()
      modifies this
      ensures Valid() && version >= remoteVersion
      ensures WholeReplay(run) && run[0].sides == old(sides) && run[0].journal == old(journal)
      ensures run[|run| - 1].journal == journal
      ensures merged <==> !(old(complete) && remoteVersion == old(masterVersion))
      ensures !merged ==> sides == run[|run| - 1].sides && Reintegrated(old(sides), old(journal), sides, journal)
      ensures !merged ==> masterVersion == version && forall e :: e in journal ==> e.name in conflicts
      ensures merged ==> Merged(run[|run| - 1].sides, sides, journal)
      ensures merged ==> Conflicts(run[|run| - 1].sides, {}, run[|run| - 1].conflicts, conflicts)
      ensures var v := run[|run| - 1].sides;
              merged ==> forall n :: n in v.local && n in v.remote && v.local[n] in v.files && v.remote[n] in v.attrs
                                     && v.files[v.local[n]].master == Some(v.remote[n])
                                     && v.files[v.local[n]].kind == v.attrs[v.remote[n]].kind ==>
                var m := v.files[v.local[n]];
                (n in conflicts <==> m.kind == Regular && m.localVersion > m.masterVersion
                                     && v.attrs[v.remote[n]].version > m.masterVersion)
      ensures merged ==> forall f :: f in sides.files && f !in run[|run| - 1].sides.files ==>
                !sides.files[f].dirty && sides.files[f].master.Some? && sides.files[f].master.value in sides.attrs
                && sides.files[f].localVersion == sides.files[f].masterVersion == sides.attrs[sides.files[f].master.value].version
      ensures forall n ::
                || AgreeAt(sides, n) || n in conflicts
                || (merged && (Unnoticed(run[|run| - 1].sides, journal, n) || Crowded(run[|run| - 1].sides, journal, n)))
      ensures complete && masterVersion == version && KindsAgree(old(sides)) ==> Explained()
      ensures KindsAgree(old(sides)) ==> KindsAgree(sides)
      ensures old(masterVersion) <= remoteVersion ==> masterVersion <= version
    {
      version, merged, run := ReplayAndUpdate(remoteVersion);
      ghost var end := run[|run| - 1];
      ReplayFrames(run);
      ReplayNotes(run);
      if Explains(run[0].sides, run[0].journal) {
        ReplayExplained(run);
      }
      if merged {
        MergedOrNoted(end.sides, sides, journal, end.conflicts, conflicts);
        ConflictsInVersions(end.sides, end.conflicts, conflicts);
        FetchedVersions(end.sides, sides, journal);
        if KindsAgree(old(sides)) && complete && masterVersion == version {
          AgreedUncrowded(end.sides, sides);
        }
      }
    }

    /** The two parts of it. */
    method ReplayAndUpdate(remoteVersion: nat) returns (version: nat, merged: bool, ghost run: seq<Replay>)
      requires Valid()
      modifies this
      ensures Valid() && version >= remoteVersion
      ensures WholeReplay(run) && run[0].sides == old(sides) && run[0].journal == old(journal)
      ensures run[|run| - 1].journal == journal
      ensures merged <==> !(old(complete) && remoteVersion == old(masterVersion))
      ensures !merged ==> sides == run[|run| - 1].sides && conflicts == run[|run| - 1].conflicts && masterVersion == version
      ensures merged ==> Merged(run[|run| - 1].sides, sides, journal)
      ensures merged ==> Conflicts(run[|run| - 1].sides, {}, run[|run| - 1].conflicts, conflicts)
      ensures merged && complete && masterVersion == version ==>
                journal == [] && forall n :: AgreeAt(sides, n) || Crowded(run[|run| - 1].sides, [], n)
      ensures old(masterVersion) <= remoteVersion ==> masterVersion <= version
    {
      var increase;
      increase, run := ReplayJournal();
      version := remoteVersion + increase;
      if increase != 0 {
        var bump := SettleVersions(increase, version);
        version := version + bump;
      }
      merged := UpdateDir(version);
    }

    // ----- runs -----

    /** What every run keeps: with the master's directory at version `remote`, the precondition of
        `Synchronize`. */
    ghost predicate Ready(remote: nat)
      reads this
    {
      && Valid() && KindsAgree(sides) && masterVersion <= remote
      && (complete && remote == masterVersion ==> Explained())
    }

    /** Other nodes change the master's listing, which raises its version. */
    method ChangedByOthers(w: Sides, remote: nat, version: nat)
      requires Ready(remote) && Sound(w) && KindsAgree(w) && w.local == sides.local && w.files == sides.files
      requires remote < version
      modifies this`sides
      ensures Ready(version) && sides == w
    {
      sides := w;
    }

    /** Something changes elsewhere. */
    method ChangedElsewhere(w: Sides, ghost remote: nat)
      requires Ready(remote) && Elsewhere(sides, journal, w)
      modifies this`sides
      ensures Ready(remote) && sides == w
    {
      if Explained() {
        ElsewhereExplained(sides, journal, w);
      }
      sides := w;
    }

    /** Reintegrate and update.  What is known of the master before tells what may be deleted there. */
    method Synchronized(remote: nat, ghost known: map<Handle, nat>) returns (version: nat, ghost run: seq<Replay>)
      requires Ready(remote)
      modifies this
      ensures Ready(version) && remote <= version && WholeReplay(run)
      ensures run[0].sides == old(sides) && run[0].journal == old(journal)
      ensures Remembers(known, old(sides), old(journal)) ==>
                Careful(run, known) && Remembers(Noticed(known, sides), sides, journal)
    {
      var merged;
      version, merged, run := Synchronize(remote);
      if Remembers(known, run[0].sides, run[0].journal) {
        DeletesOnlyKnown(run, known);
        ReplayNotes(run);
        if merged {
          assert forall f :: f in sides.files && f !in run[|run| - 1].sides.files ==> NewIsAsMaster(sides, f);
        }
        ReplayForward(run, known, sides);
        ForwardRemembers(known, run[0].sides, run[0].journal, sides, journal);
      }
    }

    /** A local operation, if it is possible; not a move between two links of one file. */
    method Operate(event: Event, ghost remote: nat, ghost known: map<Handle, nat>)
      requires Ready(remote)
      modifies this`sides, this`journal, this`localVersion
      ensures Ready(remote)
      ensures Remembers(known, old(sides), old(journal)) ==> Remembers(known, sides, journal)
    {
      ghost var v, j := sides, journal;
      match event {
        case Creates(n, kind) =>
          if n !in sides.local {
            v := WithFile(sides, Meta(None, 1, 0, false, kind));
            var _ := Create(n, kind);
          }
        case Links(n, f) =>
          if n !in sides.local && f in sides.files && (sides.files[f].kind == Folder ==> f !in sides.local.Values) {
            Link(n, f);
          }
        case Unlinks(n, last) =>
          if n in sides.local {
            var _ := Unlink(n, last);
            SameKinds(v, sides);
          }
        case Renames(from, to, last) =>
          if from in sides.local && from != to && !Twins(sides, from, to) {
            Rename(from, to, last);
            SameKinds(v, sides);
          }
        case _ =>
      }
      if Remembers(known, v, j) {
        OperationRemembers(known, v, j, sides, journal);
      }
    }

    /** Any run of local operations, changes by other nodes, changes elsewhere and synchronisations,
        as long as no handle goes over from a folder to something else or the other way round. */
    method Live(events: seq<Event>, remote0: nat) returns (remote: nat)
      requires Ready(remote0)
      modifies this
      ensures Ready(remote) && remote0 <= remote
    {
      remote := remote0;
      for i := 0 to |events|
        invariant Ready(remote) && remote0 <= remote
      {
        match events[i] {
          case Others(w, version) =>
            if Sound(w) && KindsAgree(w) && w.local == sides.local && w.files == sides.files && remote < version {
              ChangedByOthers(w, remote, version);
              remote := version;
            }
          case Beyond(w) =>
            if Elsewhere(sides, journal, w) {
              ChangedElsewhere(w, remote);
            }
          case Synchronizes =>
            ghost var run;
            remote, run := Synchronized(remote, map[]);
          case _ =>
            Operate(events[i], remote, map[]);
        }
      }
    }

    /** The same, with what this node last recorded of each file of the master, `known`, in runs in
        which neither side goes back behind it.  No replay deletes a regular file that another
        node changed since then. */
    method LiveKnowing(events: seq<Event>, remote0: nat, known0: map<Handle, nat>)
      returns (remote: nat, known: map<Handle, nat>, ghost replays: seq<Visit>)
      requires Ready(remote0) && Remembers(known0, sides, journal)
      modifies this
      ensures Ready(remote) && Remembers(known, sides, journal) && |replays| == Synchronisations(events)
      ensures forall i :: 0 <= i < |replays| ==> WholeReplay(replays[i].run) && Careful(replays[i].run, replays[i].known)
    {
      remote, known, replays := remote0, known0, [];
      for i := 0 to |events|
        invariant Ready(remote) && Remembers(known, sides, journal) && |replays| == Synchronisations(events[..i])
        invariant forall k :: 0 <= k < |replays| ==> WholeReplay(replays[k].run) && Careful(replays[k].run, replays[k].known)
      {
        assert events[..i + 1][..i] == events[..i];
        ghost var visit;
        remote, known, visit := Happen(events[i], remote, known);
        replays := if visit.Some? then replays + [visit.value] else replays;
      }
      assert events[..|events|] == events;
    }

    /** One event of it, if it is possible. */
    method Happen(event: Event, remote0: nat, known0: map<Handle, nat>)
      returns (remote: nat, known: map<Handle, nat>, ghost visit: Option<Visit>)
      requires Ready(remote0) && Remembers(known0, sides, journal)
      modifies this
      ensures Ready(remote) && Remembers(known, sides, journal)
      ensures visit.Some? <==> event.Synchronizes?
      ensures visit.Some? ==>
                && WholeReplay(visit.value.run) && visit.value.run[0].sides == old(sides) && visit.value.known == known0
                && Careful(visit.value.run, visit.value.known)
    {
      remote, known, visit := remote0, known0, None;
      match event {
        case Others(w, version) =>
          if Sound(w) && KindsAgree(w) && w.local == sides.local && w.files == sides.files && remote < version
             && Forward(known, w) {
            ForwardRemembers(known, sides, journal, w, journal);
            ChangedByOthers(w, remote, version);
            remote, known := version, Noticed(known, w);
          }
        case Beyond(w) =>
          if Elsewhere(sides, journal, w) && Forward(known, w) {
            ForwardRemembers(known, sides, journal, w, journal);
            ChangedElsewhere(w, remote);
            known := Noticed(known, w);
          }
        case Synchronizes =>
          ghost var run;
          remote, run := Synchronized(remote, known);
          visit := Some(Visit(run, known));
          known := Noticed(known, sides);
        case _ =>
          Operate(event, remote, known);
      }
    }
  }
}
