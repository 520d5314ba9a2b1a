/** Two replies that are made by going back in the buffer: the bytes of a file are read
    straight to where they belong, and the number of directory entries is filled in once
    they have been encoded.  Both are byte for byte what plain encoding makes. */
module Replies {
  import opened Contents
  import opened Wire
  import opened Messages
  import opened DataCoding

  const ZFS_OK := 0

  function Status(): Format { Signed(W4) }

  /** The bytes stand in the buffer at offset `at`. */
  ghost predicate Stands(bytes: seq<Byte>, buf: seq<Byte>, at: nat) {
    at + |bytes| <= |buf| && buf[at..at + |bytes|] == bytes
  }

  /** Encode a number that is known to fit. */
  method EncodeKnown(dc: DC, n: nat, w: Width)
    requires dc.Valid() && n < Limit(w) && dc.curLength + 16 <= dc.maxLength
    modifies dc`curPos, dc`curLength, dc.buffer
    ensures dc.Valid() && dc.curLength == Align(old(dc.curLength), w) + w.Bytes()
    ensures dc.Done() == old(dc.Done()) + EncodeNumber(n, w, old(dc.curLength))
  {
    var _ := dc.EncodeNumber(n, w);
  }

  /** Encode a number before bytes that stand at `place`; they still stand there afterwards. */
  method EncodeBefore(dc: DC, n: nat, w: Width, ghost payload: seq<Byte>, ghost place: nat)
    requires dc.Valid() && n < Limit(w) && dc.curLength + 16 <= dc.maxLength
    requires Align(dc.curLength, w) + w.Bytes() <= place && Stands(payload, dc.buffer[..], place)
    modifies dc`curPos, dc`curLength, dc.buffer
    ensures dc.Valid() && dc.curLength == Align(old(dc.curLength), w) + w.Bytes()
    ensures dc.Done() == old(dc.Done()) + EncodeNumber(n, w, old(dc.curLength))
    ensures Stands(payload, dc.buffer[..], place)
  {
    ghost var all := dc.buffer[..];
    var _ := dc.EncodeNumber(n, w);
    StillStands(payload, all, dc.buffer[..], dc.curLength, place);
  }

  /** The bytes of a status. */
  function StatusBytes(status: int, at: nat): seq<Byte>
    requires Fits(Status(), Num(status))
  {
    EncodeNumber(ToUnsigned(status, W4), W4, at)
  }

  // ----- read -----

  function ReadReplyFormat(): Format { Both(Status(), Both(Data, Unsigned(W8))) }

  function ReadReplyValue(payload: seq<Byte>, version: nat): Value {
    Pair(Num(ZFS_OK), Pair(Raw(payload), Num(version)))
  }

  lemma {:induction false} ReadReplyBytes(payload: seq<Byte>, version: nat, at: nat, l1: nat, l2: nat)
    requires |payload| <= ZFS_MAXDATA && version < Limit(W8) && l1 == Align(at, W4) + 4 && l2 == Align(l1, W4) + 4
    ensures Fits(ReadReplyFormat(), ReadReplyValue(payload, version))
    ensures Encode(ReadReplyFormat(), ReadReplyValue(payload, version), at)
         == StatusBytes(ZFS_OK, at)
            + DataAndVersion(payload, version, l1, l2)
  {
    InnerBytes(payload, version, l1, l2);
    BehindStatus(Both(Data, Unsigned(W8)), Pair(Raw(payload), Num(version)), at, l1);
  }

  lemma {:induction false} InnerBytes(payload: seq<Byte>, version: nat, l1: nat, l2: nat)
    requires |payload| <= ZFS_MAXDATA && version < Limit(W8) && l2 == Align(l1, W4) + 4
    ensures Encode(Both(Data, Unsigned(W8)), Pair(Raw(payload), Num(version)), l1) == DataAndVersion(payload, version, l1, l2)
  {
    var data := EncodeField(Data, Raw(payload), l1);
    assert Encode(Data, Raw(payload), l1) == data;
    assert EncodeField(Unsigned(W8), Num(version), l2 + |payload|) == EncodeNumber(version, W8, l2 + |payload|);
    EncodeTwoIs(Data, Unsigned(W8), Raw(payload), Num(version), l1);
  }

  /** A value behind a status of success. */
  lemma {:induction false} BehindStatus(f: Format, v: Value, at: nat, l1: nat)
    requires Fits(f, v) && l1 == Align(at, W4) + 4
    ensures Fits(Both(Status(), f), Pair(Num(ZFS_OK), v))
    ensures Encode(Both(Status(), f), Pair(Num(ZFS_OK), v), at) == StatusBytes(ZFS_OK, at) + Encode(f, v, l1)
  {
    assert EncodeField(Status(), Num(ZFS_OK), at) == StatusBytes(ZFS_OK, at) == Encode(Status(), Num(ZFS_OK), at);
    EncodeTwoIs(Status(), f, Num(ZFS_OK), v, at);
  }

  /** The reply to a read.  The place of the data is found by encoding what precedes it; the
      file is read there; then the reply is encoded over it, without copying the data. */
  method ReadReply(dc: DC, status: int, payload: seq<Byte>, version: nat)
    requires dc.Valid() && dc.curLength <= 32 && dc.maxLength == ZFS_DC_SIZE
    requires Fits(Status(), Num(status)) && |payload| <= ZFS_MAXDATA && version < Limit(W8)
    modifies dc`curPos, dc`curLength, dc.buffer
    ensures dc.Valid()
    ensures Fits(ReadReplyFormat(), ReadReplyValue(payload, version))
    ensures status == ZFS_OK ==>
              dc.Done() == old(dc.Done()) + Encode(ReadReplyFormat(), ReadReplyValue(payload, version), old(dc.curLength))
    ensures status != ZFS_OK ==> dc.Done() == old(dc.Done()) + StatusBytes(status, old(dc.curLength))
  {
    ghost var done, at := dc.Done(), dc.curLength;
    ghost var l1 := Align(at, W4) + 4;
    ghost var l2 := Align(l1, W4) + 4;
    PlacePayload(dc, payload);
    EncodeBefore(dc, ToUnsigned(status, W4), W4, payload, l2);
    ghost var between := dc.Done();
    if status == ZFS_OK {
      EncodeInPlace(dc, payload, version, l2);
      Appended(done, between, dc.Done(), StatusBytes(ZFS_OK, at), DataAndVersion(payload, version, l1, l2));
    }
    ReadReplyBytes(payload, version, at, l1, l2);
  }

  /** What follows the status of a successful read. */
  ghost function DataAndVersion(payload: seq<Byte>, version: nat, l1: nat, l2: nat): seq<Byte>
    requires |payload| <= ZFS_MAXDATA && version < Limit(W8)
  {
    EncodeNumber(|payload|, W4, l1) + payload + EncodeNumber(version, W8, l2 + |payload|)
  }

  /** Read the data of the file to where it will belong, and go back. */
  method PlacePayload(dc: DC, payload: seq<Byte>)
    requires dc.Valid() && dc.curLength <= 32 && dc.maxLength == ZFS_DC_SIZE && |payload| <= ZFS_MAXDATA
    modifies dc`curPos, dc`curLength, dc.buffer
    ensures dc.Valid() && dc.curLength == old(dc.curLength) && dc.Done() == old(dc.Done())
    ensures Stands(payload, dc.buffer[..], Align(Align(old(dc.curLength), W4) + 4, W4) + 4)
  {
    var oldPos, oldLength := dc.curPos, dc.curLength;
    var place := FindPlace(dc);
    dc.curPos, dc.curLength := oldPos, oldLength;
    ghost var before := dc.buffer[..];
    PatchedStands(before, place - dc.base, payload);
    dc.Fill(place, payload);
    assert dc.buffer[..oldLength] == dc.buffer[..][..place - dc.base][..oldLength] == before[..oldLength];
  }

  lemma {:induction false} PatchedStands(all: seq<Byte>, at: nat, payload: seq<Byte>)
    requires |all| == ZFS_DC_SIZE && at + |payload| <= |all|
    ensures Stands(payload, Patch(all, at, payload), at)
    ensures Patch(all, at, payload)[..at] == all[..at]
  {
  }

  /** Bytes that stand behind what changed still stand. */
  lemma {:induction false} StillStands(payload: seq<Byte>, all: seq<Byte>, now: seq<Byte>, from: nat, at: nat)
    requires |all| == |now| == ZFS_DC_SIZE && from <= at && Stands(payload, all, at)
    requires now[from..] == all[from..]
    ensures Stands(payload, now, at)
  {
    forall k | at <= k < at + |payload| ensures now[k] == all[k] {
      assert now[k] == now[from..][k - from] && all[k] == all[from..][k - from];
    }
    assert now[at..at + |payload|] == all[at..at + |payload|];
  }

  /** Where the data of the reply will be: behind a status and a length. */
  method FindPlace(dc: DC) returns (place: nat)
    requires dc.Valid() && dc.curLength <= 32 && dc.maxLength == ZFS_DC_SIZE
    modifies dc`curPos, dc`curLength, dc.buffer
    ensures dc.buffer[..old(dc.curLength)] == old(dc.Done())
    ensures place == dc.base + Align(Align(old(dc.curLength), W4) + 4, W4) + 4
  {
    ghost var at, done := dc.curLength, dc.Done();
    var _ := dc.EncodeNumber(ZFS_OK, W4);
    ghost var l1 := dc.curLength;
    var _ := dc.EncodeNumber(0, W4);
    assert dc.buffer[..at] == dc.buffer[..l1][..at] == done;
    place := dc.curPos;
  }

  /** Move the cursor over bytes that are in place. */
  method Skip(dc: DC, payload: seq<Byte>)
    requires dc.Valid() && dc.curLength + |payload| <= dc.maxLength
    requires Stands(payload, dc.buffer[..], dc.curLength)
    modifies dc`curPos, dc`curLength
    ensures dc.Valid() && dc.Done() == old(dc.Done()) + payload
  {
    assert dc.buffer[..dc.curLength + |payload|] == dc.buffer[..dc.curLength] + dc.buffer[..][dc.curLength..dc.curLength + |payload|];
    dc.curLength := dc.curLength + |payload|;
    dc.curPos := dc.curPos + |payload|;
  }

  /** A data buffer whose bytes are in place already, at offset `place`, and a version. */
  method EncodeInPlace(dc: DC, payload: seq<Byte>, version: nat, ghost place: nat)
    requires dc.Valid() && dc.curLength <= 40 && dc.maxLength == ZFS_DC_SIZE
    requires |payload| <= ZFS_MAXDATA && version < Limit(W8)
    requires place == Align(dc.curLength, W4) + 4 && Stands(payload, dc.buffer[..], place)
    modifies dc`curPos, dc`curLength, dc.buffer
    ensures dc.Valid()
    ensures dc.Done() == old(dc.Done()) + DataAndVersion(payload, version, old(dc.curLength), place)
  {
    ghost var number := EncodeNumber(|payload|, W4, dc.curLength);
    ghost var before := dc.Done();
    EncodeBefore(dc, |payload|, W4, payload, place);
    ghost var middle := dc.Done();
    Skip(dc, payload);
    Appended(before, middle, dc.Done(), number, payload);
    middle := dc.Done();
    EncodeKnown(dc, version, W8);
    Appended(before, middle, dc.Done(), number + payload, EncodeNumber(version, W8, place + |payload|));
  }

  // ----- readdir -----

  function EntryFormat(): Format { Both(Unsigned(W4), Both(Signed(W4), Text(ZFS_MAXNAMELEN))) }

  lemma {:induction false} EntryTakesSpace(entry: Value, at: nat)
    requires Fits(EntryFormat(), entry)
    ensures |Encode(EntryFormat(), entry, at)| >= 4
  {
    assert |Encode(Unsigned(W4), entry.first, at)| >= 4;
  }

  lemma {:induction false} EntriesTakeSpace(entries: seq<Value>, at: nat)
    requires AllFit(EntryFormat(), entries)
    ensures |EncodeMany(EntryFormat(), entries, at)| >= |entries|
    decreases |entries|
  {
    if entries != [] {
      var front, entry := entries[..|entries| - 1], entries[|entries| - 1];
      EntriesTakeSpace(front, at);
      EntryTakesSpace(entry, at + |EncodeMany(EntryFormat(), front, at)|);
    }
  }

  ghost predicate Room(f: Format, entry: Value, at: nat, max: nat, written: nat, count: nat)
    requires Fits(f, entry)
  {
    at + |Encode(f, entry, at)| <= max && written + |Encode(f, entry, at)| <= count
  }

  /** Try to add a directory entry, which has format `f`.  It is added exactly when the buffer
      and the limit of the request have room for it; otherwise the cursor goes back. */
  method FillDir(dc: DC, f: Format, entry: Value, written0: nat, count: nat) returns (ok: bool, written: nat)
    requires dc.Valid() && Fits(f, entry)
    modifies dc`curPos, dc`curLength, dc.buffer
    ensures dc.Valid()
    ensures ok <==> Room(f, entry, old(dc.curLength), dc.maxLength, written0, count)
    ensures ok <==> old(dc.curLength) + |Encode(f, entry, old(dc.curLength))| <= dc.maxLength
                    && written0 + |Encode(f, entry, old(dc.curLength))| <= count
    ensures ok ==> dc.Done() == old(dc.Done()) + Encode(f, entry, old(dc.curLength))
    ensures ok ==> written == written0 + |Encode(f, entry, old(dc.curLength))|
    ensures !ok ==> dc.curLength == old(dc.curLength) && dc.Done() == old(dc.Done()) && written == written0
  {
    var oldPos, oldLength := dc.curPos, dc.curLength;
    written := written0;
    ok := dc.EncodeValue(f, entry);
    if !ok || written + dc.curLength - oldLength > count {
      dc.curPos, dc.curLength := oldPos, oldLength;
      return false, written;
    }
    written := written + dc.curLength - oldLength;
  }

  /** Entries as long as there is room. */
  method FillEntries(dc: DC, f: Format, entries: seq<Value>, count: nat) returns (n: nat)
    requires dc.Valid() && AllFit(f, entries)
    modifies dc`curPos, dc`curLength, dc.buffer
    ensures dc.Valid() && n <= |entries| && old(dc.curLength) <= dc.curLength
    ensures AllFit(f, entries[..n])
    ensures dc.Done() == old(dc.Done()) + EncodeMany(f, entries[..n], old(dc.curLength))
    ensures n < |entries| ==>
              !Room(f, entries[n], dc.curLength, dc.maxLength, dc.curLength - old(dc.curLength), count)
  {
    n := 0;
    var written := 0;
    while n < |entries|
      invariant dc.Valid() && n <= |entries| && dc.curLength == old(dc.curLength) + written
      invariant AllFit(f, entries[..n])
      invariant dc.Done() == old(dc.Done()) + EncodeMany(f, entries[..n], old(dc.curLength))
    {
      FirstFit(f, entries, n + 1);
      var ok;
      ok, written := FillNext(dc, f, entries[..n + 1], written, count, old(dc.Done()));
      if !ok {
        break;
      }
      n := n + 1;
    }
  }

  lemma {:induction false} FirstFit(f: Format, entries: seq<Value>, n: nat)
    requires AllFit(f, entries) && 0 < n <= |entries|
    ensures AllFit(f, entries[..n]) && entries[..n][..n - 1] == entries[..n - 1]
  {
  }

  /** The last of `entries`, the others being encoded behind `before`. */
  method FillNext(dc: DC, f: Format, entries: seq<Value>, written0: nat, count: nat, ghost before: seq<Byte>)
    returns (ok: bool, written: nat)
    requires dc.Valid() && AllFit(f, entries) && entries != [] && written0 == dc.curLength - |before|
    requires dc.Done() == before + EncodeMany(f, entries[..|entries| - 1], |before|)
    modifies dc`curPos, dc`curLength, dc.buffer
    ensures dc.Valid() && dc.curLength == |before| + written
    ensures ok <==> Room(f, entries[|entries| - 1], old(dc.curLength), dc.maxLength, written0, count)
    ensures ok ==> dc.Done() == before + EncodeMany(f, entries, |before|)
    ensures !ok ==> dc.Done() == old(dc.Done()) && dc.curLength == old(dc.curLength) && written == written0
  {
    ghost var done, here := dc.Done(), dc.curLength;
    ghost var front, last := EncodeMany(f, entries[..|entries| - 1], |before|), Encode(f, entries[|entries| - 1], here);
    assert EncodeMany(f, entries, |before|) == front + last;
    ok, written := FillDir(dc, f, entries[|entries| - 1], written0, count);
    if ok {
      Appended(before, done, dc.Done(), front, last);
    }
  }

  function ListFormat(n: nat): Format {
    Both(Status(), Both(Both(Unsigned(W4), Signed(W1)), Times(n, EntryFormat())))
  }

  function ListValue(n: nat, eof: int, entries: seq<Value>): Value {
    Pair(Num(ZFS_OK), Pair(Pair(Num(n), Num(eof)), Many(entries)))
  }

  /** Encode a listing with an empty head, and go back; the entries stand behind the head. */
  method ListEntries(dc: DC, entries: seq<Value>, count: nat, ghost l3: nat) returns (n: nat, length: nat)
    requires dc.Valid() && dc.curLength <= 32 && dc.maxLength == ZFS_DC_SIZE && AllFit(EntryFormat(), entries)
    requires l3 == Align(Align(dc.curLength, W4) + 4, W4) + 5
    modifies dc`curPos, dc`curLength, dc.buffer
    ensures dc.Valid() && dc.curLength == old(dc.curLength) && dc.Done() == old(dc.Done())
    ensures n <= |entries| && AllFit(EntryFormat(), entries[..n])
    ensures length == l3 + |EncodeMany(EntryFormat(), entries[..n], l3)| <= ZFS_DC_SIZE
    ensures n < |entries| ==> !Room(EntryFormat(), entries[n], length, ZFS_DC_SIZE, length - l3, count)
    ensures Stands(EncodeMany(EntryFormat(), entries[..n], l3), dc.buffer[..], l3)
  {
    var oldPos, oldLength := dc.curPos, dc.curLength;
    EmptyHead(dc);
    ghost var head := dc.Done();
    n := FillEntries(dc, EntryFormat(), entries, count);
    length := dc.curLength;
    EntriesStand(head, EncodeMany(EntryFormat(), entries[..n], l3), dc.buffer[..], length, oldLength);
    dc.curPos, dc.curLength := oldPos, oldLength;
  }

  lemma {:induction false} EntriesStand(head: seq<Byte>, entries: seq<Byte>, all: seq<Byte>, length: nat, at: nat)
    requires |all| == ZFS_DC_SIZE && length <= |all| && all[..length] == head + entries && at <= |head|
    ensures Stands(entries, all, |head|) && all[..at] == head[..at]
  {
    assert all[|head|..length] == all[..length][|head|..] == entries;
    assert all[..at] == all[..length][..at];
  }

  method EmptyHead(dc: DC)
    requires dc.Valid() && dc.curLength <= 32 && dc.maxLength == ZFS_DC_SIZE
    modifies dc`curPos, dc`curLength, dc.buffer
    ensures dc.Valid() && dc.curLength == Align(Align(old(dc.curLength), W4) + 4, W4) + 5
    ensures dc.Done()[..old(dc.curLength)] == old(dc.Done())
  {
    EncodeKnown(dc, ZFS_OK, W4);
    ghost var first := dc.Done();
    EncodeKnown(dc, 0, W4);
    ghost var second := dc.Done();
    EncodeKnown(dc, 0, W1);
    StartKept(old(dc.Done()), first, second, dc.Done());
  }

  lemma {:induction false} StartKept(a: seq<Byte>, b: seq<Byte>, c: seq<Byte>, d: seq<Byte>)
    requires a <= b <= c <= d
    ensures d[..|a|] == a
  {
  }

  /** The reply to a directory read: the entries are encoded behind a head that does not know
      their number yet, then the head is encoded over it. */
  method ReaddirReply(dc: DC, entries: seq<Value>, count: nat, status: int, eof: int) returns (n: nat)
    requires dc.Valid() && dc.curLength <= 32 && dc.maxLength == ZFS_DC_SIZE && AllFit(EntryFormat(), entries)
    requires Fits(Status(), Num(status)) && Fits(Signed(W1), Num(eof))
    modifies dc`curPos, dc`curLength, dc.buffer
    ensures dc.Valid() && n <= |entries| && Fits(ListFormat(n), ListValue(n, eof, entries[..n]))
    ensures status == ZFS_OK ==> HeadEnd(old(dc.curLength)) <= dc.curLength
    ensures status == ZFS_OK ==>
              dc.Done() == old(dc.Done()) + Encode(ListFormat(n), ListValue(n, eof, entries[..n]), old(dc.curLength))
    ensures status == ZFS_OK && n < |entries| ==>
              !Room(EntryFormat(), entries[n], dc.curLength, ZFS_DC_SIZE,
                    dc.curLength - HeadEnd(old(dc.curLength)), count)
    ensures status != ZFS_OK ==> dc.Done() == old(dc.Done()) + StatusBytes(status, old(dc.curLength))
  {
    ghost var at := dc.curLength;
    ghost var l1 := Align(at, W4) + 4;
    n := WriteList(dc, entries, count, status, eof, l1, HeadEnd(at));
    ListBytes(n, eof, entries[..n], at, l1, HeadEnd(at));
  }

  /** Where the entries of a listing begin. */
  function HeadEnd(at: nat): nat { Align(Align(at, W4) + 4, W4) + 5 }

  method WriteList(dc: DC, entries: seq<Value>, count: nat, status: int, eof: int, ghost l1: nat, ghost l3: nat)
    returns (n: nat)
    requires dc.Valid() && dc.curLength <= 32 && dc.maxLength == ZFS_DC_SIZE && AllFit(EntryFormat(), entries)
    requires Fits(Status(), Num(status)) && Fits(Signed(W1), Num(eof))
    requires l1 == Align(dc.curLength, W4) + 4 && l3 == Align(l1, W4) + 5
    modifies dc`curPos, dc`curLength, dc.buffer
    ensures dc.Valid() && n <= |entries| && n < Limit(W4) && AllFit(EntryFormat(), entries[..n])
    ensures status == ZFS_OK ==> l3 <= dc.curLength
    ensures status == ZFS_OK ==>
              dc.Done() == old(dc.Done())
                + (StatusBytes(ZFS_OK, old(dc.curLength))
                   + HeadAndListing(n, eof, l1, EncodeMany(EntryFormat(), entries[..n], l3)))
    ensures status == ZFS_OK && n < |entries| ==>
              !Room(EntryFormat(), entries[n], dc.curLength, ZFS_DC_SIZE, dc.curLength - l3, count)
    ensures status != ZFS_OK ==> dc.Done() == old(dc.Done()) + StatusBytes(status, old(dc.curLength))
  {
    ghost var at, done := dc.curLength, dc.Done();
    var length;
    n, length := PlaceList(dc, entries, count, status, l1, l3);
    ghost var listing := EncodeMany(EntryFormat(), entries[..n], l3);
    ghost var between := dc.Done();
    if status == ZFS_OK {
      FinishList(dc, n, eof, length, listing, l3);
      Appended(done, between, dc.Done(), StatusBytes(ZFS_OK, at), HeadAndListing(n, eof, l1, listing));
    }
  }

  /** Encode the entries where they belong, then the status before them. */
  method PlaceList(dc: DC, entries: seq<Value>, count: nat, status: int, ghost l1: nat, ghost l3: nat)
    returns (n: nat, length: nat)
    requires dc.Valid() && dc.curLength <= 32 && dc.maxLength == ZFS_DC_SIZE && AllFit(EntryFormat(), entries)
    requires Fits(Status(), Num(status)) && l1 == Align(dc.curLength, W4) + 4 && l3 == Align(l1, W4) + 5
    modifies dc`curPos, dc`curLength, dc.buffer
    ensures dc.Valid() && dc.curLength == l1 && dc.Done() == old(dc.Done()) + StatusBytes(status, old(dc.curLength))
    ensures n <= |entries| && n < Limit(W4) && AllFit(EntryFormat(), entries[..n])
    ensures length == l3 + |EncodeMany(EntryFormat(), entries[..n], l3)| <= ZFS_DC_SIZE
    ensures n < |entries| ==> !Room(EntryFormat(), entries[n], length, ZFS_DC_SIZE, length - l3, count)
    ensures Stands(EncodeMany(EntryFormat(), entries[..n], l3), dc.buffer[..], l3)
  {
    n, length := ListEntries(dc, entries, count, l3);
    EntriesTakeSpace(entries[..n], l3);
    EncodeBefore(dc, ToUnsigned(status, W4), W4, EncodeMany(EntryFormat(), entries[..n], l3), l3);
  }

  /** What follows the status of a successful directory read. */
  ghost function HeadAndListing(n: nat, eof: int, l1: nat, listing: seq<Byte>): seq<Byte>
    requires n < Limit(W4) && Fits(Signed(W1), Num(eof))
  {
    EncodeNumber(n, W4, l1) + EncodeNumber(ToUnsigned(eof, W1), W1, Align(l1, W4) + 4) + listing
  }

  /** Fill in the head and go to the end of the entries. */
  method FinishList(dc: DC, n: nat, eof: int, length: nat, ghost listing: seq<Byte>, ghost l3: nat)
    requires dc.Valid() && dc.curLength <= 40 && dc.maxLength == ZFS_DC_SIZE
    requires n < Limit(W4) && Fits(Signed(W1), Num(eof))
    requires l3 == Align(dc.curLength, W4) + 5 && length == l3 + |listing| <= ZFS_DC_SIZE
    requires Stands(listing, dc.buffer[..], l3)
    modifies dc`curPos, dc`curLength, dc.buffer
    ensures dc.Valid() && dc.curLength == length
    ensures dc.Done() == old(dc.Done()) + HeadAndListing(n, eof, old(dc.curLength), listing)
  {
    ghost var before, l1 := dc.Done(), dc.curLength;
    EncodeBefore(dc, n, W4, listing, l3);
    ghost var middle := dc.Done();
    EncodeBefore(dc, ToUnsigned(eof, W1), W1, listing, l3);
    ghost var number, flag := EncodeNumber(n, W4, l1), EncodeNumber(ToUnsigned(eof, W1), W1, Align(l1, W4) + 4);
    Appended(before, middle, dc.Done(), number, flag);
    middle := dc.Done();
    assert dc.buffer[..length] == dc.buffer[..l3] + dc.buffer[..][l3..length];
    dc.curPos, dc.curLength := dc.base + length, length;
    assert dc.Done() == middle + listing;
    Appended(before, middle, dc.Done(), number + flag, listing);
  }

  lemma {:induction false} ListBytes(n: nat, eof: int, entries: seq<Value>, at: nat, l1: nat, l3: nat)
    requires n == |entries| && n < Limit(W4) && Fits(Signed(W1), Num(eof)) && AllFit(EntryFormat(), entries)
    requires l1 == Align(at, W4) + 4 && l3 == Align(l1, W4) + 5
    ensures Fits(ListFormat(n), ListValue(n, eof, entries))
    ensures Encode(ListFormat(n), ListValue(n, eof, entries), at)
         == StatusBytes(ZFS_OK, at) + HeadAndListing(n, eof, l1, EncodeMany(EntryFormat(), entries, l3))
  {
    var head, list := Both(Unsigned(W4), Signed(W1)), Times(n, EntryFormat());
    HeadBytes(n, eof, l1, l3);
    ArrayIs(n, EntryFormat(), Many(entries), l3);
    HeadThenList(head, list, Pair(Num(n), Num(eof)), Many(entries), at, l1);
  }

  lemma {:induction false} HeadThenList(head: Format, list: Format, x: Value, y: Value, at: nat, l1: nat)
    requires Fits(head, x) && Fits(list, y) && l1 == Align(at, W4) + 4
    ensures Fits(Both(Status(), Both(head, list)), Pair(Num(ZFS_OK), Pair(x, y)))
    ensures Encode(Both(Status(), Both(head, list)), Pair(Num(ZFS_OK), Pair(x, y)), at)
         == StatusBytes(ZFS_OK, at) + (Encode(head, x, l1) + Encode(list, y, l1 + |Encode(head, x, l1)|))
  {
    var f, v := Both(head, list), Pair(x, y);
    EncodeTwoIs(head, list, x, y, l1);
    assert Encode(f, v, l1) == EncodeTwo(head, list, x, y, l1);
    BehindStatus(f, v, at, l1);
  }

  lemma {:induction false} HeadBytes(n: nat, eof: int, l1: nat, l3: nat)
    requires n < Limit(W4) && Fits(Signed(W1), Num(eof)) && l3 == Align(l1, W4) + 5
    ensures Fits(Both(Unsigned(W4), Signed(W1)), Pair(Num(n), Num(eof)))
    ensures Encode(Both(Unsigned(W4), Signed(W1)), Pair(Num(n), Num(eof)), l1)
         == EncodeNumber(n, W4, l1) + EncodeNumber(ToUnsigned(eof, W1), W1, Align(l1, W4) + 4)
    ensures l1 + |Encode(Both(Unsigned(W4), Signed(W1)), Pair(Num(n), Num(eof)), l1)| == l3
  {
    assert Encode(Unsigned(W4), Num(n), l1) == EncodeField(Unsigned(W4), Num(n), l1) == EncodeNumber(n, W4, l1);
    var at := Align(l1, W4) + 4;
    assert Encode(Signed(W1), Num(eof), at) == EncodeField(Signed(W1), Num(eof), at);
    EncodeTwoIs(Unsigned(W4), Signed(W1), Num(n), Num(eof), l1);
  }
}
