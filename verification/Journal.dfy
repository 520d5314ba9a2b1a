/** The two listings of a cached directory, the local one and the master's, and the journal
    of local changes that explains how they differ. */
module Journal {
  import opened Options

  type Name = string
  type FileId = nat
  type Handle = nat

  /** `Special` files (links, devices) are compared by what they are. */
  datatype Kind = Regular | Folder | Special(body: nat)

  /** Metadata of a local file; `dirty` says that it has a tree of modified intervals. */
  datatype Meta = Meta(master: Option<Handle>, localVersion: nat, masterVersion: nat, dirty: bool, kind: Kind)

  /** Attributes of a file on the master. */
  datatype Attr = Attr(version: nat, kind: Kind)

  /** A name was added or deleted; `master` is the handle its file had then. */
  datatype Entry = Entry(add: bool, name: Name, file: FileId, master: Option<Handle>, masterVersion: nat)

  /** Both sides as values.  `files` are the files that exist on this node and `attrs` those
      that exist on the master, in this directory or elsewhere; ids from `nextFile` and
      handles from `nextHandle` on are not used yet. */
  datatype Sides = Sides(
    local: map<Name, FileId>,
    files: map<FileId, Meta>,
    remote: map<Name, Handle>,
    attrs: map<Handle, Attr>,
    nextFile: FileId,
    nextHandle: Handle)

  // ----- the two listings -----

  /** The same name stands for the same file, or for none, on both sides. */
  ghost predicate AgreeAt(v: Sides, n: Name) {
    && (n in v.local <==> n in v.remote)
    && (n in v.local ==> v.local[n] in v.files && v.files[v.local[n]].master == Some(v.remote[n]))
  }

  /** A handle belongs to one local file. */
  predicate OneFileEach(files: map<FileId, Meta>) {
    forall f, g :: f in files && g in files && files[f].master == files[g].master && files[f].master.Some? ==> f == g
  }

  predicate RemoteFolder(v: Sides, h: Handle) {
    h in v.attrs && v.attrs[h].kind == Folder
  }

  predicate LocalFolder(v: Sides, f: FileId) {
    f in v.files && v.files[f].kind == Folder
  }

  /** A folder has one name here, and one on the master. */
  predicate OneNameEach(v: Sides) {
    && (forall a, b :: a in v.remote && b in v.remote && v.remote[a] == v.remote[b] && RemoteFolder(v, v.remote[a]) ==> a == b)
    && (forall a, b :: a in v.local && b in v.local && v.local[a] == v.local[b] && LocalFolder(v, v.local[a]) ==> a == b)
  }

  predicate Sound(v: Sides) {
    && (forall n :: n in v.local ==> v.local[n] in v.files)
    && (forall n :: n in v.remote ==> v.remote[n] in v.attrs)
    && (forall f :: f in v.files ==> f < v.nextFile && (v.files[f].master.Some? ==> v.files[f].master.value < v.nextHandle))
    && (forall h :: h in v.attrs ==> h < v.nextHandle)
    && OneFileEach(v.files) && OneNameEach(v)
  }

  /** Name file `f` as `n`; a folder is moved there, so it loses its other name. */
  function Bind(names: map<Name, nat>, n: Name, f: nat, folder: bool): map<Name, nat> {
    (if folder then map a | a in names && names[a] != f :: names[a] else names)[n := f]
  }

  // ----- the journal -----

  predicate DelPending(journal: seq<Entry>, n: Name) {
    exists e :: e in journal && !e.add && e.name == n
  }

  predicate AddPending(journal: seq<Entry>, n: Name) {
    exists e :: e in journal && e.add && e.name == n
  }

  /** Position of the entry for an operation on a name, else the length of the journal. */
  function Find(journal: seq<Entry>, add: bool, n: Name): (p: nat)
    ensures p <= |journal|
    ensures p < |journal| ==> journal[p].add == add && journal[p].name == n
    ensures p == |journal| ==> forall e :: e in journal ==> !(e.add == add && e.name == n)
  {
    if journal == [] then 0
    else if journal[0].add == add && journal[0].name == n then 0
    else
      assert journal == [journal[0]] + journal[1..];
      1 + Find(journal[1..], add, n)
  }

  function RemoveAt(journal: seq<Entry>, p: nat): (r: seq<Entry>)
    requires p < |journal|
    ensures |r| == |journal| - 1
    ensures forall q :: 0 <= q < |r| ==> r[q] == journal[if q < p then q else q + 1]
  {
    journal[..p] + journal[p + 1..]
  }

  /** The journal with one more entry.  A deletion and the addition it undoes cancel; an old
      entry for the same operation on the same name is replaced. */
  function Recorded(journal: seq<Entry>, e: Entry): seq<Entry> {
    var undone := Find(journal, true, e.name);
    var same := Find(journal, e.add, e.name);
    if !e.add && undone < |journal| then RemoveAt(journal, undone)
    else (if same < |journal| then RemoveAt(journal, same) else journal) + [e]
  }

  /** An operation on a name occurs once, a deletion before an addition. */
  ghost predicate Optimised(journal: seq<Entry>) {
    forall i, j :: 0 <= i < j < |journal| && journal[i].name == journal[j].name ==> !journal[i].add && journal[j].add
  }

  lemma RemovedMembers(journal: seq<Entry>, p: nat)
    requires p < |journal|
    ensures forall e :: e in RemoveAt(journal, p) ==> exists q :: 0 <= q < |journal| && q != p && journal[q] == e
    ensures forall e :: e in journal && e != journal[p] ==> e in RemoveAt(journal, p)
  {
    var r := RemoveAt(journal, p);
    forall e | e in r ensures exists q :: 0 <= q < |journal| && q != p && journal[q] == e {
      var q :| 0 <= q < |r| && r[q] == e;
      assert e == journal[if q < p then q else q + 1];
    }
    forall e | e in journal && e != journal[p] ensures e in r {
      var q :| 0 <= q < |journal| && journal[q] == e;
      assert r[if q < p then q else q - 1] == e;
    }
  }

  lemma RemovedOptimised(journal: seq<Entry>, p: nat)
    requires Optimised(journal) && p < |journal|
    ensures Optimised(RemoveAt(journal, p))
    ensures forall e :: e in RemoveAt(journal, p) ==> e in journal && !(e.add == journal[p].add && e.name == journal[p].name)
    ensures forall e :: e in journal && e != journal[p] ==> e in RemoveAt(journal, p)
  {
    RemovedMembers(journal, p);
    forall e | e in RemoveAt(journal, p) ensures e in journal && !(e.add == journal[p].add && e.name == journal[p].name) {
      var q :| 0 <= q < |journal| && q != p && journal[q] == e;
    }
  }

  lemma RemovedPending(journal: seq<Entry>, p: nat, n: Name)
    requires Optimised(journal) && p < |journal|
    ensures DelPending(RemoveAt(journal, p), n) <==> DelPending(journal, n) && (journal[p].add || journal[p].name != n)
    ensures AddPending(RemoveAt(journal, p), n) <==> AddPending(journal, n) && !(journal[p].add && journal[p].name == n)
  {
    RemovedOptimised(journal, p);
    var r := RemoveAt(journal, p);
    if DelPending(journal, n) && (journal[p].add || journal[p].name != n) {
      var e :| e in journal && !e.add && e.name == n;
      assert e in r;
    }
    if AddPending(journal, n) && !(journal[p].add && journal[p].name == n) {
      var e :| e in journal && e.add && e.name == n;
      assert e in r;
    }
  }

  lemma AppendedPending(journal: seq<Entry>, e: Entry, n: Name)
    ensures DelPending(journal + [e], n) <==> DelPending(journal, n) || (!e.add && e.name == n)
    ensures AddPending(journal + [e], n) <==> AddPending(journal, n) || (e.add && e.name == n)
  {
    if DelPending(journal, n) {
      var x :| x in journal && !x.add && x.name == n;
      assert x in journal + [e];
    }
    if AddPending(journal, n) {
      var x :| x in journal && x.add && x.name == n;
      assert x in journal + [e];
    }
    assert e in journal + [e];
  }

  /** Recording keeps the journal optimised, whatever is recorded. */
  lemma RecordedOptimised(journal: seq<Entry>, e: Entry)
    requires Optimised(journal)
    ensures Optimised(Recorded(journal, e))
  {
    var undone := Find(journal, true, e.name);
    var same := Find(journal, e.add, e.name);
    if !e.add && undone < |journal| {
      RemovedOptimised(journal, undone);
    } else {
      if same < |journal| {
        RemovedOptimised(journal, same);
      }
      var rest := if same < |journal| then RemoveAt(journal, same) else journal;
      forall i | 0 <= i < |rest| && rest[i].name == e.name ensures !rest[i].add && e.add {
        assert rest[i] in rest;
        assert rest[i] in journal;
      }
    }
  }

  /** What is recorded for the first time is put at the end. */
  lemma RecordedFresh(journal: seq<Entry>, e: Entry)
    requires Optimised(journal) && !AddPending(journal, e.name) && (!e.add ==> !DelPending(journal, e.name))
    ensures Recorded(journal, e) == journal + [e] && Optimised(journal + [e])
  {
    RecordedOptimised(journal, e);
  }

  /** The journal without the entries for an operation on a name. */
  function Without(journal: seq<Entry>, add: bool, n: Name): seq<Entry> {
    if journal == [] then []
    else if Is(journal[0], add, n) then Without(journal[1..], add, n)
    else [journal[0]] + Without(journal[1..], add, n)
  }

  predicate Is(e: Entry, add: bool, n: Name) { e.add == add && e.name == n }

  lemma {:induction false} WithoutMembers(journal: seq<Entry>, add: bool, n: Name)
    ensures forall e :: e in Without(journal, add, n) ==> e in journal && !Is(e, add, n)
  {
    if journal != [] {
      WithoutMembers(journal[1..], add, n);
    }
  }

  lemma {:induction false} WithoutAbsent(journal: seq<Entry>, add: bool, n: Name)
    requires forall e :: e in journal ==> !Is(e, add, n)
    ensures Without(journal, add, n) == journal
  {
    if journal != [] {
      WithoutAbsent(journal[1..], add, n);
      assert journal == [journal[0]] + journal[1..];
    }
  }

  lemma {:induction false} WithoutConcat(a: seq<Entry>, b: seq<Entry>, add: bool, n: Name)
    ensures Without(a + b, add, n) == Without(a, add, n) + Without(b, add, n)
  {
    if a == [] {
      assert a + b == b && Without(a, add, n) + Without(b, add, n) == Without(b, add, n);
    } else {
      WithoutConcat(a[1..], b, add, n);
      assert (a + b)[1..] == a[1..] + b && (a + b)[0] == a[0];
    }
  }

  lemma {:induction false} WithoutOne(journal: seq<Entry>, p: nat)
    requires Optimised(journal) && p < |journal|
    ensures Without(journal, journal[p].add, journal[p].name) == RemoveAt(journal, p)
  {
    var add, n, a, b := journal[p].add, journal[p].name, journal[..p], journal[p + 1..];
    OthersDiffer(journal, p);
    assert journal == a + ([journal[p]] + b);
    WithoutConcat(a, [journal[p]] + b, add, n);
    WithoutConcat([journal[p]], b, add, n);
    WithoutAbsent(a, add, n);
    WithoutAbsent(b, add, n);
  }

  lemma {:induction false} OthersDiffer(journal: seq<Entry>, p: nat)
    requires Optimised(journal) && p < |journal|
    ensures forall e :: e in journal[..p] ==> !Is(e, journal[p].add, journal[p].name)
    ensures forall e :: e in journal[p + 1..] ==> !Is(e, journal[p].add, journal[p].name)
  {
    forall e | e in journal[p + 1..] ensures !Is(e, journal[p].add, journal[p].name) {
      var q :| 0 <= q < |journal[p + 1..]| && journal[p + 1..][q] == e;
      assert journal[p + 1 + q] == e;
    }
  }

  /** What recording does: a deletion takes away the pending addition of its name, if there is
      one; everything else goes to the end, in place of an older entry for the same operation
      on the same name.  The others stay in their order. */
  lemma RecordedExactly(journal: seq<Entry>, e: Entry)
    requires Optimised(journal)
    ensures !e.add && AddPending(journal, e.name) ==> Recorded(journal, e) == Without(journal, true, e.name)
    ensures e.add || !AddPending(journal, e.name) ==> Recorded(journal, e) == Without(journal, e.add, e.name) + [e]
  {
    var undone, same := Find(journal, true, e.name), Find(journal, e.add, e.name);
    if undone < |journal| {
      assert journal[undone] in journal;
      WithoutOne(journal, undone);
    }
    if same < |journal| {
      WithoutOne(journal, same);
    } else {
      WithoutAbsent(journal, e.add, e.name);
    }
  }

  /** New entries of the journal tell the truth about the files of `v`: the handle of the file and
      the version of the master that was recorded for it. */
  ghost predicate Truthful(v: Sides, before: seq<Entry>, after: seq<Entry>) {
    forall e :: e in after && e !in before ==>
      e.file in v.files && e.master == v.files[e.file].master && e.masterVersion == v.files[e.file].masterVersion
  }

  lemma RecordedTruthful(v: Sides, journal: seq<Entry>, e: Entry)
    requires Optimised(journal) && e.file in v.files
    requires e.master == v.files[e.file].master && e.masterVersion == v.files[e.file].masterVersion
    ensures Truthful(v, journal, Recorded(journal, e))
  {
    RecordedExactly(journal, e);
    WithoutMembers(journal, true, e.name);
    WithoutMembers(journal, e.add, e.name);
  }

  lemma TruthfulMore(v: Sides, a: seq<Entry>, b: seq<Entry>, w: Sides, c: seq<Entry>)
    requires Truthful(v, a, b) && Truthful(w, b, c) && forall f :: f in w.files ==> f in v.files && w.files[f] == v.files[f]
    ensures Truthful(v, a, c)
  {
  }

  // ----- a journal that explains the difference -----

  /** A folder to be added was deleted, in this directory, where the master has it. */
  ghost predicate Freed(v: Sides, before: seq<Entry>, e: Entry) {
    e.add ==> forall a :: a in v.remote && e.master == Some(v.remote[a]) && RemoteFolder(v, v.remote[a]) ==> DelPending(before, a)
  }

  ghost predicate FoldersFreed(v: Sides, journal: seq<Entry>) {
    forall q :: 0 <= q < |journal| ==> Freed(v, journal[..q], journal[q])
  }

  /** A deletion names what the master has. */
  ghost predicate DelFits(v: Sides, e: Entry) {
    e.name in v.remote && e.master == Some(v.remote[e.name])
  }

  /** An addition names what is here; its handle may have become known only later. */
  ghost predicate AddFits(v: Sides, e: Entry) {
    && e.name in v.local && e.file == v.local[e.name] && e.file in v.files
    && (e.master == v.files[e.file].master || (e.master == None && v.files[e.file].kind != Folder))
  }

  /** The journal accounts for name `n`: the two sides agree there unless it has an entry. */
  ghost predicate Accounts(v: Sides, journal: seq<Entry>, n: Name) {
    && (forall e :: e in journal && e.name == n ==> if e.add then AddFits(v, e) else DelFits(v, e))
    && (if DelPending(journal, n) then AddPending(journal, n) <==> n in v.local
        else if AddPending(journal, n) then n !in v.remote
        else AgreeAt(v, n))
  }

  /** The ids and handles of an entry are old, and its handle is not that of another file. */
  predicate EntryKnown(v: Sides, e: Entry) {
    && e.file < v.nextFile
    && (e.master.Some? ==> e.master.value < v.nextHandle)
    && (e.master.Some? ==> forall f :: f in v.files && v.files[f].master == e.master ==> f == e.file)
  }

  predicate KindsAgree(v: Sides) {
    forall f :: f in v.files && v.files[f].master.Some? && v.files[f].master.value in v.attrs ==>
      (LocalFolder(v, f) <==> RemoteFolder(v, v.files[f].master.value))
  }

  ghost predicate Explains(v: Sides, journal: seq<Entry>) {
    && Sound(v) && KindsAgree(v)
    && Optimised(journal) && FoldersFreed(v, journal)
    && (forall e :: e in journal ==> EntryKnown(v, e))
    && (forall n :: Accounts(v, journal, n))
  }

  lemma RemovedPrefix(journal: seq<Entry>, p: nat, q: nat, n: Name)
    requires p < |journal| && q < |journal| && q != p && DelPending(journal[..q], n)
    requires !journal[p].add ==> journal[p].name != n
    ensures DelPending(RemoveAt(journal, p)[..if q < p then q else q - 1], n)
  {
    var e :| e in journal[..q] && !e.add && e.name == n;
    var k :| 0 <= k < q && journal[..q][k] == e;
    assert RemoveAt(journal, p)[..if q < p then q else q - 1][if k < p then k else k - 1] == e;
  }

  /** Folders stay freed when an entry is gone, and a deletion with its name. */
  lemma RemovedFreed(v0: Sides, v: Sides, journal: seq<Entry>, p: nat)
    requires FoldersFreed(v0, journal) && p < |journal|
    requires forall a, h :: a in v.remote && v.remote[a] == h && RemoteFolder(v, h) && OldHandle(journal, h) ==>
               a in v0.remote && v0.remote[a] == h && RemoteFolder(v0, h)
    requires !journal[p].add ==> journal[p].name !in v.remote
    ensures FoldersFreed(v, RemoveAt(journal, p))
  {
    var r := RemoveAt(journal, p);
    forall q | 0 <= q < |r| ensures Freed(v, r[..q], r[q]) {
      var q0 := if q < p then q else q + 1;
      assert r[q] == journal[q0] && Freed(v0, journal[..q0], journal[q0]);
      forall a | r[q].add && a in v.remote && r[q].master == Some(v.remote[a]) && RemoteFolder(v, v.remote[a])
        ensures DelPending(r[..q], a)
      {
        assert journal[q0] in journal && OldHandle(journal, v.remote[a]);
        RemovedPrefix(journal, p, q0, a);
      }
    }
  }

  /** Some entry has handle `h`. */
  ghost predicate OldHandle(journal: seq<Entry>, h: Handle) {
    exists e :: e in journal && e.master == Some(h)
  }

  lemma AppendedFreed(v: Sides, journal: seq<Entry>, e: Entry)
    requires FoldersFreed(v, journal) && Freed(v, journal, e)
    ensures FoldersFreed(v, journal + [e])
  {
    var r := journal + [e];
    forall q | 0 <= q < |r| ensures Freed(v, r[..q], r[q]) {
      if q < |journal| {
        assert r[..q] == journal[..q];
      } else {
        assert r[..q] == journal;
      }
    }
  }

  /** Where a folder without a name here is on the master, its deletion is pending. */
  lemma FolderFreed(v: Sides, journal: seq<Entry>, f: FileId, a: Name)
    requires Explains(v, journal) && f in v.files && f !in v.local.Values
    requires a in v.remote && v.files[f].master == Some(v.remote[a])
    ensures DelPending(journal, a)
  {
    assert Accounts(v, journal, a);
  }

  // ----- what local operations do -----

  /** Another name keeps its account when its entries and both sides of it stay; the handle
      of its file may have become known. */
  lemma AccountsOther(v0: Sides, j0: seq<Entry>, v: Sides, j: seq<Entry>, m: Name)
    requires Accounts(v0, j0, m)
    requires forall e: Entry :: e.name == m ==> (e in j <==> e in j0)
    requires m in v.local <==> m in v0.local
    requires m in v.remote <==> m in v0.remote
    requires m in v.remote ==> v.remote[m] == v0.remote[m]
    requires m in v.local && v0.local[m] in v0.files ==> v.local[m] == v0.local[m] && v.local[m] in v.files
    requires m in v.local && v0.local[m] in v0.files ==>
               var f := v.local[m];
               v.files[f] == v0.files[f]
               || (v0.files[f].master == None && v0.files[f].kind != Folder && v.files[f].kind != Folder)
    ensures Accounts(v, j, m)
  {
    assert DelPending(j, m) <==> DelPending(j0, m);
    assert AddPending(j, m) <==> AddPending(j0, m);
  }

  /** A file with an id of its own appears on this node. */
  function WithFile(v: Sides, meta: Meta): Sides {
    v.(files := v.files[v.nextFile := meta], nextFile := v.nextFile + 1)
  }

  lemma WithFileSound(v: Sides, meta: Meta)
    requires Sound(v) && meta.master == None
    ensures Sound(WithFile(v, meta))
  {
    var w := WithFile(v, meta);
    forall a, b | a in w.local && b in w.local && w.local[a] == w.local[b] && LocalFolder(w, w.local[a]) ensures a == b {
      assert LocalFolder(v, v.local[a]);
    }
    forall a, b | a in w.remote && b in w.remote && w.remote[a] == w.remote[b] && RemoteFolder(w, w.remote[a])
      ensures a == b
    {
      assert RemoteFolder(v, v.remote[a]);
    }
  }

  lemma WithFileExplained(v: Sides, j: seq<Entry>, meta: Meta)
    requires Explains(v, j) && meta.master == None
    ensures Explains(WithFile(v, meta), j)
  {
    var w := WithFile(v, meta);
    forall m ensures Accounts(w, j, m) {
      assert Accounts(v, j, m);
      AccountsOther(v, j, w, j, m);
    }
    forall e | e in j ensures EntryKnown(w, e) {
      assert EntryKnown(v, e);
    }
    forall q | 0 <= q < |j| ensures Freed(w, j[..q], j[q]) {
      assert Freed(v, j[..q], j[q]);
    }
  }

  function EntryFor(v: Sides, add: bool, n: Name, f: FileId): Entry
    requires f in v.files
  {
    Entry(add, n, f, v.files[f].master, v.files[f].masterVersion)
  }

  /** Naming a file and recording it. */
  lemma LinkExplained(v: Sides, j: seq<Entry>, n: Name, f: FileId)
    requires Explains(v, j) && n !in v.local && f in v.files
    requires v.files[f].kind == Folder ==> f !in v.local.Values
    ensures Explains(v.(local := v.local[n := f]), Recorded(j, EntryFor(v, true, n, f)))
  {
    var e := EntryFor(v, true, n, f);
    var w, k := v.(local := v.local[n := f]), j + [e];
    assert Accounts(v, j, n);
    RecordedFresh(j, e);
    LinkAccounts(v, j, n, f);
    assert KindsAgree(w) by {
      forall g | g in w.files && w.files[g].master.Some? && w.files[g].master.value in w.attrs
        ensures LocalFolder(w, g) <==> RemoteFolder(w, w.files[g].master.value)
      {
        assert LocalFolder(v, g) <==> RemoteFolder(v, v.files[g].master.value);
      }
    }
    LinkSound(v, n, f);
    LinkFreed(v, j, n, f);
  }

  lemma LinkSound(v: Sides, n: Name, f: FileId)
    requires Sound(v) && n !in v.local && f in v.files && (v.files[f].kind == Folder ==> f !in v.local.Values)
    ensures Sound(v.(local := v.local[n := f]))
  {
    var w := v.(local := v.local[n := f]);
    forall a, b | a in w.local && b in w.local && w.local[a] == w.local[b] && LocalFolder(w, w.local[a]) ensures a == b {
      if a in v.local {
        assert v.local[a] in v.local.Values;
      }
      if b in v.local {
        assert v.local[b] in v.local.Values;
      }
      assert LocalFolder(v, w.local[a]);
    }
    forall a, b | a in w.remote && b in w.remote && w.remote[a] == w.remote[b] && RemoteFolder(w, w.remote[a])
      ensures a == b
    {
      assert RemoteFolder(v, v.remote[a]);
    }
  }

  lemma LinkAccounts(v: Sides, j: seq<Entry>, n: Name, f: FileId)
    requires Explains(v, j) && n !in v.local && f in v.files && !AddPending(j, n)
    ensures var w, k := v.(local := v.local[n := f]), j + [EntryFor(v, true, n, f)];
            (forall m :: Accounts(w, k, m)) && (forall x :: x in k ==> EntryKnown(w, x))
  {
    var e := EntryFor(v, true, n, f);
    var w, k := v.(local := v.local[n := f]), j + [e];
    forall m ensures Accounts(w, k, m) {
      AppendedPending(j, e, m);
      assert Accounts(v, j, m);
      if m != n {
        AccountsOther(v, j, w, k, m);
      }
    }
    forall x | x in k ensures EntryKnown(w, x) {
      if x in j {
        assert EntryKnown(v, x);
      }
    }
  }

  lemma LinkFreed(v: Sides, j: seq<Entry>, n: Name, f: FileId)
    requires Explains(v, j) && f in v.files
    requires v.files[f].kind == Folder ==> f !in v.local.Values
    ensures FoldersFreed(v.(local := v.local[n := f]), j + [EntryFor(v, true, n, f)])
  {
    var w, e := v.(local := v.local[n := f]), EntryFor(v, true, n, f);
    forall q | 0 <= q < |j| ensures Freed(w, j[..q], j[q]) {
      assert Freed(v, j[..q], j[q]);
    }
    forall a | a in w.remote && e.master == Some(w.remote[a]) && RemoteFolder(w, w.remote[a]) ensures DelPending(j, a) {
      assert LocalFolder(v, f) <==> RemoteFolder(v, v.files[f].master.value);
      FolderFreed(v, j, f, a);
    }
    AppendedFreed(w, j, e);
  }

  /** A name is taken away; `dead` says that its file does not exist any more. */
  function Unnamed(v: Sides, n: Name, dead: bool): Sides
    requires n in v.local
  {
    v.(local := v.local - {n}, files := if dead then v.files - {v.local[n]} else v.files)
  }

  lemma UnnamedSound(v: Sides, n: Name, dead: bool)
    requires Sound(v) && n in v.local && (dead ==> v.local[n] !in (v.local - {n}).Values)
    ensures Sound(Unnamed(v, n, dead))
    ensures KindsAgree(v) ==> KindsAgree(Unnamed(v, n, dead))
    ensures forall m :: m in Unnamed(v, n, dead).local ==>
              Unnamed(v, n, dead).local[m] == v.local[m] && v.local[m] in Unnamed(v, n, dead).files
  {
    var w := Unnamed(v, n, dead);
    forall m | m in w.local ensures w.local[m] == v.local[m] && v.local[m] in w.files {
      assert w.local[m] in w.local.Values;
    }
    if KindsAgree(v) {
      forall f | f in w.files && w.files[f].master.Some? && w.files[f].master.value in w.attrs
        ensures LocalFolder(w, f) <==> RemoteFolder(w, w.files[f].master.value)
      {
        assert LocalFolder(v, f) <==> RemoteFolder(v, v.files[f].master.value);
      }
    }
  }

  /** Taking a name away and recording it. */
  lemma UnlinkExplained(v: Sides, j: seq<Entry>, n: Name, dead: bool)
    requires Explains(v, j) && n in v.local && (dead ==> v.local[n] !in (v.local - {n}).Values)
    ensures Explains(Unnamed(v, n, dead), Recorded(j, EntryFor(v, false, n, v.local[n])))
  {
    var e := EntryFor(v, false, n, v.local[n]);
    var undone := Find(j, true, n);
    assert Accounts(v, j, n);
    if undone < |j| {
      assert j[undone] in j && AddPending(j, n);
      UnlinkUndoes(v, j, n, dead, undone);
    } else {
      assert !AddPending(j, n) && !DelPending(j, n);
      RecordedFresh(j, e);
      UnlinkRecords(v, j, n, dead);
    }
  }

  /** The addition of the name was pending, and goes. */
  lemma UnlinkUndoes(v: Sides, j: seq<Entry>, n: Name, dead: bool, p: nat)
    requires Explains(v, j) && n in v.local && (dead ==> v.local[n] !in (v.local - {n}).Values)
    requires p < |j| && j[p].add && j[p].name == n
    ensures Explains(Unnamed(v, n, dead), RemoveAt(j, p))
  {
    var w, k := Unnamed(v, n, dead), RemoveAt(j, p);
    UnnamedSound(v, n, dead);
    RemovedOptimised(j, p);
    RemovedFreed(v, w, j, p);
    forall m ensures Accounts(w, k, m) {
      RemovedPending(j, p, m);
      assert Accounts(v, j, m);
      if m != n {
        AccountsOther(v, j, w, k, m);
      } else {
        assert j[p] in j;
      }
    }
    forall x | x in k ensures EntryKnown(w, x) {
      assert EntryKnown(v, x);
    }
  }

  /** The name was on both sides; its deletion becomes pending. */
  lemma UnlinkRecords(v: Sides, j: seq<Entry>, n: Name, dead: bool)
    requires Explains(v, j) && n in v.local && (dead ==> v.local[n] !in (v.local - {n}).Values)
    requires !AddPending(j, n) && !DelPending(j, n)
    ensures Explains(Unnamed(v, n, dead), j + [EntryFor(v, false, n, v.local[n])])
  {
    var e := EntryFor(v, false, n, v.local[n]);
    var w, k := Unnamed(v, n, dead), j + [e];
    assert Accounts(v, j, n) && AgreeAt(v, n);
    UnnamedSound(v, n, dead);
    RecordedFresh(j, e);
    forall m ensures Accounts(w, k, m) {
      AppendedPending(j, e, m);
      assert Accounts(v, j, m);
      if m != n {
        AccountsOther(v, j, w, k, m);
      }
    }
    forall x | x in k ensures EntryKnown(w, x) {
      if x in j {
        assert EntryKnown(v, x);
      }
    }
    forall q | 0 <= q < |j| ensures Freed(w, j[..q], j[q]) {
      assert Freed(v, j[..q], j[q]);
    }
    AppendedFreed(w, j, e);
  }

  /** Changes elsewhere on both sides, in other directories and in the files themselves: names
      of this directory stay; a file named here keeps its kind and its handle, if it has one,
      and one named on the master its kind; the handles in the journal stay those of the
      same files. */
  predicate Elsewhere(v: Sides, journal: seq<Entry>, w: Sides) {
    && Sound(w) && KindsAgree(w) && w.local == v.local && w.remote == v.remote
    && v.nextFile <= w.nextFile && v.nextHandle <= w.nextHandle
    && (forall n :: n in v.local && v.local[n] in v.files ==>
          && w.files[v.local[n]].kind == v.files[v.local[n]].kind
          && (w.files[v.local[n]].master == v.files[v.local[n]].master
              || (v.files[v.local[n]].master == None && v.files[v.local[n]].kind != Folder)))
    && (forall n :: n in v.remote ==> (RemoteFolder(w, v.remote[n]) <==> RemoteFolder(v, v.remote[n])))
    && (forall e :: e in journal ==> EntryKnown(w, e))
  }

  lemma ElsewhereExplained(v: Sides, j: seq<Entry>, w: Sides)
    requires Explains(v, j) && Elsewhere(v, j, w)
    ensures Explains(w, j)
  {
    forall m ensures Accounts(w, j, m) {
      assert Accounts(v, j, m);
    }
    forall q | 0 <= q < |j| ensures Freed(w, j[..q], j[q]) {
      assert Freed(v, j[..q], j[q]);
    }
  }

  // ----- what replaying an entry does -----

  /** The metadata of a file just created on the master, where it is at version 1. */
  function Registered(meta: Meta, h: Handle): (m: Meta)
    ensures m.master == Some(h) && m.kind == meta.kind && m.localVersion >= m.masterVersion
    ensures m.dirty ==> m.localVersion > m.masterVersion
    ensures m.masterVersion == 1 && m.dirty == meta.dirty
    ensures m.localVersion == meta.localVersion || meta.localVersion < m.localVersion == 1 + if meta.dirty then 1 else 0
  {
    var version := if meta.dirty then 2 else 1;
    meta.(master := Some(h), masterVersion := 1,
          localVersion := if meta.localVersion < version then version else meta.localVersion)
  }

  /** The file named `n` is created on the master. */
  function Created(v: Sides, n: Name): Sides
    requires n in v.local && v.local[n] in v.files
  {
    var f, h := v.local[n], v.nextHandle;
    v.(files := v.files[f := Registered(v.files[f], h)], remote := v.remote[n := h],
       attrs := v.attrs[h := Attr(1, v.files[f].kind)], nextHandle := h + 1)
  }

  /** The master names file `h` as `n`, and moves it there if it is a folder. */
  function Moved(v: Sides, n: Name, h: Handle): Sides
    requires h in v.attrs
  {
    v.(remote := Bind(v.remote, n, h, v.attrs[h].kind == Folder))
  }

  /** The master loses name `n`, and its file if `gone`. */
  function DelSent(v: Sides, n: Name, gone: bool): Sides
    requires n in v.remote
  {
    v.(remote := v.remote - {n}, attrs := if gone then v.attrs - {v.remote[n]} else v.attrs)
  }

  /** A name was deleted here with the last of its file, which was changed on the master. */
  ghost predicate Contested(v: Sides, e: Entry) {
    && !e.add && DelFits(v, e) && v.remote[e.name] in v.attrs
    && e.file !in v.files && v.attrs[v.remote[e.name]].kind == Regular
    && e.masterVersion != v.attrs[v.remote[e.name]].version
  }

  /** A name was added here that stands for something else on the master. */
  ghost predicate Doubled(v: Sides, e: Entry) {
    e.add && e.name in v.local && e.name in v.remote && !AgreeAt(v, e.name)
  }

  /** The deletion of a last name, recorded when the master's version of the file was `recorded`,
      is refused if and only if the master has another version of the regular file by now;
      when it is not, the master loses the name. */
  lemma RefusedExactly(v: Sides, e: Entry, recorded: nat, w: Sides)
    requires Sound(v) && Replayed(v, e, w)
    requires !e.add && e.masterVersion == recorded && e.file !in v.files
    requires e.name in v.remote && e.master == Some(v.remote[e.name]) && v.attrs[v.remote[e.name]].kind == Regular
    ensures Contested(v, e) <==> v.attrs[v.remote[e.name]].version != recorded
    ensures v.attrs[v.remote[e.name]].version != recorded ==> w == v
    ensures v.attrs[v.remote[e.name]].version == recorded ==> w.remote == v.remote - {e.name}
  {
  }

  /** The same over an unlinking, after which the journal is `j`, and the replay of what it recorded
      of the name: what counts is the version in the metadata the file had when it lost its last
      name. */
  lemma UnlinkedRefusedExactly(v: Sides, j0: seq<Entry>, n: Name, j: seq<Entry>, u: Sides, e: Entry, w: Sides)
    requires Sound(v) && n in v.local && Sound(u) && e in j && !e.add && e.name == n && Replayed(u, e, w)
    requires var m := v.files[v.local[n]];
             && j == Without(j0, false, n) + [Entry(false, n, v.local[n], m.master, m.masterVersion)]
             && v.local[n] !in u.files && n in u.remote && m.master == Some(u.remote[n]) && u.attrs[u.remote[n]].kind == Regular
    ensures Contested(u, e) <==> u.attrs[u.remote[n]].version != v.files[v.local[n]].masterVersion
    ensures n in w.remote <==> u.attrs[u.remote[n]].version != v.files[v.local[n]].masterVersion
  {
    WithoutMembers(j0, false, n);
    RefusedExactly(u, e, v.files[v.local[n]].masterVersion, w);
  }

  /** The name of an addition is dropped: the master does not have it, and although its file
      has a handle the entry has none, or one that does not exist any more. */
  ghost predicate Drops(v: Sides, e: Entry) {
    && e.add && e.name in v.local && e.name !in v.remote
    && v.local[e.name] in v.files && v.files[v.local[e.name]].master != None
    && (e.master == None || e.master.value !in v.attrs)
  }

  ghost predicate UnnamedTo(v: Sides, n: Name, w: Sides)
    requires n in v.local
  {
    w == Unnamed(v, n, false) || (w == Unnamed(v, n, true) && v.local[n] !in (v.local - {n}).Values)
  }

  ghost predicate DelSentTo(v: Sides, e: Entry, w: Sides)
    requires e.name in v.remote
  {
    || w == DelSent(v, e.name, false)
    || (w == DelSent(v, e.name, true) && e.file !in v.files && v.remote[e.name] !in (v.remote - {e.name}).Values)
  }

  /** Exactly what replaying an entry does to the two sides. */
  ghost predicate Replayed(v: Sides, e: Entry, w: Sides)
    requires Sound(v)
  {
    if e.add then
      if e.name !in v.local || e.name in v.remote then w == v
      else if v.files[v.local[e.name]].master == None then w == Created(v, e.name)
      else if Drops(v, e) then UnnamedTo(v, e.name, w)
      else w == Moved(v, e.name, e.master.value)
    else if DelFits(v, e) && !Contested(v, e) then DelSentTo(v, e, w)
    else w == v
  }

  lemma CreatedSound(v: Sides, n: Name)
    requires Sound(v) && n in v.local && n !in v.remote && v.files[v.local[n]].master == None
    ensures Sound(Created(v, n))
    ensures KindsAgree(v) ==> KindsAgree(Created(v, n))
  {
    var w, f, h := Created(v, n), v.local[n], v.nextHandle;
    forall a, b | a in w.remote && b in w.remote && w.remote[a] == w.remote[b] && RemoteFolder(w, w.remote[a])
      ensures a == b
    {
      if a != n && b != n {
        assert RemoteFolder(v, v.remote[a]);
      }
    }
    forall a, b | a in w.local && b in w.local && w.local[a] == w.local[b] && LocalFolder(w, w.local[a]) ensures a == b {
      assert LocalFolder(v, v.local[a]);
    }
    if KindsAgree(v) {
      forall g | g in w.files && w.files[g].master.Some? && w.files[g].master.value in w.attrs
        ensures LocalFolder(w, g) <==> RemoteFolder(w, w.files[g].master.value)
      {
        if g != f {
          assert LocalFolder(v, g) <==> RemoteFolder(v, v.files[g].master.value);
        }
      }
    }
  }

  lemma MovedSound(v: Sides, n: Name, h: Handle)
    requires Sound(v) && h in v.attrs && n !in v.remote
    ensures Sound(Moved(v, n, h))
    ensures KindsAgree(v) ==> KindsAgree(Moved(v, n, h))
  {
    var w := Moved(v, n, h);
    forall a, b | a in w.remote && b in w.remote && w.remote[a] == w.remote[b] && RemoteFolder(w, w.remote[a])
      ensures a == b
    {
      assert RemoteFolder(v, w.remote[a]);
    }
    SameLocals(v, w);
  }

  /** The local half is sound with more or fewer names on the master. */
  lemma SameLocals(v: Sides, w: Sides)
    requires Sound(v) && w.local == v.local && w.files == v.files && w.nextFile == v.nextFile
    requires forall h :: h in w.attrs ==> h in v.attrs && w.attrs[h] == v.attrs[h]
    ensures KindsAgree(v) ==> KindsAgree(w)
    ensures forall a, b :: a in w.local && b in w.local && w.local[a] == w.local[b] && LocalFolder(w, w.local[a]) ==> a == b
  {
    forall a, b | a in w.local && b in w.local && w.local[a] == w.local[b] && LocalFolder(w, w.local[a]) ensures a == b {
      assert LocalFolder(v, v.local[a]);
    }
    if KindsAgree(v) {
      forall g | g in w.files && w.files[g].master.Some? && w.files[g].master.value in w.attrs
        ensures LocalFolder(w, g) <==> RemoteFolder(w, w.files[g].master.value)
      {
        assert LocalFolder(v, g) <==> RemoteFolder(v, v.files[g].master.value);
      }
    }
  }

  lemma DelSentSound(v: Sides, n: Name, gone: bool)
    requires Sound(v) && n in v.remote && (gone ==> v.remote[n] !in (v.remote - {n}).Values)
    ensures Sound(DelSent(v, n, gone))
    ensures KindsAgree(v) ==> KindsAgree(DelSent(v, n, gone))
  {
    var w := DelSent(v, n, gone);
    forall a | a in w.remote ensures w.remote[a] in w.attrs {
      assert w.remote[a] in w.remote.Values;
    }
    forall a, b | a in w.remote && b in w.remote && w.remote[a] == w.remote[b] && RemoteFolder(w, w.remote[a])
      ensures a == b
    {
      assert RemoteFolder(v, v.remote[a]);
    }
    SameLocals(v, w);
  }

  /** Replaying an entry keeps the two sides sound. */
  lemma ReplayedSound(v: Sides, e: Entry, w: Sides)
    requires Sound(v) && Replayed(v, e, w)
    ensures Sound(w) && (KindsAgree(v) ==> KindsAgree(w))
  {
    if w != v {
      if !e.add {
        DelSentSound(v, e.name, w == DelSent(v, e.name, true) && w != DelSent(v, e.name, false));
      } else if v.files[v.local[e.name]].master == None {
        CreatedSound(v, e.name);
      } else if Drops(v, e) {
        UnnamedSound(v, e.name, w == Unnamed(v, e.name, true) && w != Unnamed(v, e.name, false));
      } else {
        MovedSound(v, e.name, e.master.value);
      }
    }
  }

  // ----- replaying keeps the rest explained -----

  /** The entries before position `p` stay because their deletions are contested. */
  ghost predicate KeptContested(v: Sides, journal: seq<Entry>, p: nat)
    requires p <= |journal|
  {
    forall q :: 0 <= q < p ==> Contested(v, journal[q]) || (journal[q].add && DelPending(journal[..p], journal[q].name))
  }

  lemma DelSentExplained(v: Sides, j: seq<Entry>, p: nat, w: Sides)
    requires Explains(v, j) && p < |j| && !j[p].add && DelFits(v, j[p]) && DelSentTo(v, j[p], w)
    ensures Explains(w, RemoveAt(j, p))
  {
    var n, k := j[p].name, RemoveAt(j, p);
    DelSentSound(v, n, w == DelSent(v, n, true) && w != DelSent(v, n, false));
    RemovedOptimised(j, p);
    RemovedFreed(v, w, j, p);
    forall m ensures Accounts(w, k, m) {
      RemovedPending(j, p, m);
      assert Accounts(v, j, m);
      if m != n {
        AccountsOther(v, j, w, k, m);
      } else {
        assert j[p] in j;
      }
    }
    forall x | x in k ensures EntryKnown(w, x) {
      assert EntryKnown(v, x);
    }
  }

  lemma CreatedExplained(v: Sides, j: seq<Entry>, p: nat)
    requires Explains(v, j) && p < |j| && j[p].add && j[p].name !in v.remote
    requires AddFits(v, j[p]) && v.files[j[p].file].master == None
    ensures Explains(Created(v, j[p].name), RemoveAt(j, p))
  {
    var n, k, w := j[p].name, RemoveAt(j, p), Created(v, j[p].name);
    CreatedSound(v, n);
    RemovedOptimised(j, p);
    assert FoldersFreed(w, k) by {
      forall e | e in j ensures e.master.Some? ==> e.master.value < v.nextHandle {
        assert EntryKnown(v, e);
      }
      RemovedFreed(v, w, j, p);
    }
    forall m ensures Accounts(w, k, m) {
      RemovedPending(j, p, m);
      assert Accounts(v, j, m);
      if m != n {
        CreatedOther(v, n, m);
        AccountsOther(v, j, w, k, m);
      } else {
        assert j[p] in j;
      }
    }
    forall x | x in k ensures EntryKnown(w, x) {
      assert EntryKnown(v, x);
    }
  }

  /** A folder has no other name, so only other files learn their handle under other names. */
  lemma CreatedOther(v: Sides, n: Name, m: Name)
    requires Sound(v) && n in v.local && v.files[v.local[n]].master == None && m != n
    ensures m in v.local ==>
              var f, w := v.local[m], Created(v, n);
              w.files[f] == v.files[f]
              || (v.files[f].master == None && v.files[f].kind != Folder && w.files[f].kind != Folder)
  {
    assert m in v.local && LocalFolder(v, v.local[m]) ==> v.local[m] != v.local[n];
  }

  lemma MovedExplained(v: Sides, j: seq<Entry>, p: nat, h: Handle)
    requires Explains(v, j) && p < |j| && j[p].add && j[p].name !in v.remote && AddFits(v, j[p])
    requires j[p].master == Some(h) && h in v.attrs
    requires v.attrs[h].kind == Folder ==> h !in v.remote.Values
    ensures Explains(Moved(v, j[p].name, h), RemoveAt(j, p))
  {
    var n, k, w := j[p].name, RemoveAt(j, p), Moved(v, j[p].name, h);
    forall a | a in v.remote ensures a in w.remote && w.remote[a] == v.remote[a] {
      assert v.remote[a] in v.remote.Values;
    }
    MovedSound(v, n, h);
    RemovedOptimised(j, p);
    forall m ensures Accounts(w, k, m) {
      RemovedPending(j, p, m);
      assert Accounts(v, j, m);
      if m != n {
        AccountsOther(v, j, w, k, m);
      } else {
        assert j[p] in j;
      }
    }
    forall x | x in k ensures EntryKnown(w, x) {
      assert EntryKnown(v, x);
    }
    MovedFreed(v, j, p, h);
  }

  /** No other addition waits for the folder just moved. */
  lemma MovedFreed(v: Sides, j: seq<Entry>, p: nat, h: Handle)
    requires Explains(v, j) && p < |j| && j[p].add && j[p].name !in v.remote && AddFits(v, j[p])
    requires j[p].master == Some(h) && h in v.attrs
    requires v.attrs[h].kind == Folder ==> h !in v.remote.Values
    ensures FoldersFreed(Moved(v, j[p].name, h), RemoveAt(j, p))
  {
    var n, k, w := j[p].name, RemoveAt(j, p), Moved(v, j[p].name, h);
    forall q | 0 <= q < |k| ensures Freed(w, k[..q], k[q]) {
      var q0 := if q < p then q else q + 1;
      assert k[q] == j[q0] && Freed(v, j[..q0], j[q0]) && j[q0] in j;
      forall a | k[q].add && a in w.remote && k[q].master == Some(w.remote[a]) && RemoteFolder(w, w.remote[a])
        ensures DelPending(k[..q], a)
      {
        if a == n {
          OneAddition(v, j, p, q0, h);
        } else {
          assert RemoteFolder(v, v.remote[a]);
          RemovedPrefix(j, p, q0, a);
        }
      }
    }
  }

  /** Two additions of one folder are the same entry. */
  lemma OneAddition(v: Sides, j: seq<Entry>, p: nat, q: nat, h: Handle)
    requires Explains(v, j) && p < |j| && q < |j| && j[p].add && j[q].add
    requires j[p].master == j[q].master == Some(h) && RemoteFolder(v, h)
    ensures p == q
  {
    assert j[p] in j && j[q] in j;
    assert Accounts(v, j, j[p].name) && Accounts(v, j, j[q].name);
    assert AddFits(v, j[p]) && AddFits(v, j[q]);
    assert LocalFolder(v, j[p].file) <==> RemoteFolder(v, v.files[j[p].file].master.value);
    assert j[p].file == j[q].file;
    assert j[p].name == j[q].name;
  }

  /** An addition finds its name on the master only behind a contested deletion, and then for
      another file. */
  lemma AdditionIsNew(v: Sides, j: seq<Entry>, p: nat)
    requires Explains(v, j) && p < |j| && KeptContested(v, j, p) && j[p].add
    ensures AddFits(v, j[p])
    ensures Doubled(v, j[p]) <==> DelPending(j, j[p].name)
    ensures Doubled(v, j[p]) || j[p].name !in v.remote
  {
    var n := j[p].name;
    assert j[p] in j && Accounts(v, j, n) && AddPending(j, n);
    if DelPending(j, n) {
      var d :| d in j && !d.add && d.name == n;
      var k :| 0 <= k < |j| && j[k] == d;
      assert k < p && Contested(v, j[k]);
      assert EntryKnown(v, d);
    }
  }

  /** A folder about to be moved is nowhere on the master's listing. */
  lemma FolderIsAway(v: Sides, j: seq<Entry>, p: nat, h: Handle)
    requires Explains(v, j) && p < |j| && KeptContested(v, j, p) && j[p].add && j[p].master == Some(h)
    requires RemoteFolder(v, h)
    ensures h !in v.remote.Values
  {
    forall d | d in j[..p] && !d.add ensures d.name in v.remote && v.remote[d.name] != h {
      var k :| 0 <= k < p && j[k] == d;
      assert Contested(v, j[k]);
    }
    assert Freed(v, j[..p], j[p]);
    assert forall a :: a in v.remote ==> v.remote[a] != h;
  }

  /** Replaying the entry at `p`, when no conflict keeps it, leaves the rest explaining. */
  lemma ReplayedExplained(v: Sides, j: seq<Entry>, p: nat, w: Sides)
    requires Explains(v, j) && p < |j| && KeptContested(v, j, p)
    requires Replayed(v, j[p], w) && !Contested(v, j[p]) && !Doubled(v, j[p])
    ensures Explains(w, RemoveAt(j, p))
  {
    var e := j[p];
    assert e in j && Accounts(v, j, e.name);
    if !e.add {
      DelSentExplained(v, j, p, w);
    } else {
      AdditionIsNew(v, j, p);
      if v.files[e.file].master == None {
        CreatedExplained(v, j, p);
      } else if Drops(v, e) {
        UnlinkUndoes(v, j, e.name, w == Unnamed(v, e.name, true) && w != Unnamed(v, e.name, false), p);
      } else {
        if RemoteFolder(v, e.master.value) {
          FolderIsAway(v, j, p, e.master.value);
        }
        MovedExplained(v, j, p, e.master.value);
      }
    }
  }

  /** A move between two hard links of one file, as recorded, leaves `from` here although its
      addition is not pending: it was not on the master, or it is being deleted there. */
  lemma TwinUnexplained(v: Sides, j: seq<Entry>, from: Name, to: Name)
    requires Explains(v, j) && from in v.local && to in v.local && from != to && v.local[from] == v.local[to]
    ensures var f := v.local[from];
            var k := Recorded(Recorded(Recorded(j, EntryFor(v, false, from, f)), EntryFor(v, false, to, f)), EntryFor(v, true, to, f));
            !Explains(v, k)
  {
    var f := v.local[from];
    var a := Recorded(j, EntryFor(v, false, from, f));
    var b := Recorded(a, EntryFor(v, false, to, f));
    var k := Recorded(b, EntryFor(v, true, to, f));
    RecordedOptimised(j, EntryFor(v, false, from, f));
    RecordedOptimised(a, EntryFor(v, false, to, f));
    RecordedOptimised(b, EntryFor(v, true, to, f));
    RecordedAt(j, EntryFor(v, false, from, f), from);
    RecordedOther(a, EntryFor(v, false, to, f), from);
    RecordedOther(b, EntryFor(v, true, to, f), from);
    assert Accounts(v, j, from);
    assert !AddPending(k, from);
    assert !Accounts(v, k, from);
  }

  /** The deletion of `n` leaves no addition of it, and is itself there if there was none. */
  lemma RecordedAt(j: seq<Entry>, e: Entry, n: Name)
    requires Optimised(j) && !e.add && e.name == n
    ensures !AddPending(Recorded(j, e), n)
    ensures DelPending(Recorded(j, e), n) <==> DelPending(j, n) || !AddPending(j, n)
  {
    var undone, same := Find(j, true, n), Find(j, false, n);
    if undone < |j| {
      RemovedPending(j, undone, n);
      assert j[undone] in j;
    } else {
      if same < |j| {
        RemovedPending(j, same, n);
      }
      AppendedPending(if same < |j| then RemoveAt(j, same) else j, e, n);
    }
  }

  lemma RecordedOther(j: seq<Entry>, e: Entry, n: Name)
    requires Optimised(j) && e.name != n
    ensures AddPending(Recorded(j, e), n) <==> AddPending(j, n)
    ensures DelPending(Recorded(j, e), n) <==> DelPending(j, n)
  {
    var undone, same := Find(j, true, e.name), Find(j, e.add, e.name);
    if !e.add && undone < |j| {
      RemovedPending(j, undone, n);
    } else {
      if same < |j| {
        RemovedPending(j, same, n);
      }
      AppendedPending(if same < |j| then RemoveAt(j, same) else j, e, n);
    }
  }
}
