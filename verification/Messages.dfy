/** The layouts of the protocol's messages, and the sizes they can have. */
module Messages {
  import opened Contents
  import opened Options
  import opened Wire

  const ZFS_MAXPATHLEN := 1023
  const ZFS_MAXNAMELEN := 255
  const ZFS_MAXNODELEN := 256
  const MD5_SIZE := 16
  const ZFS_VERIFY_LEN := MD5_SIZE
  const ZFS_MAX_MD5_CHUNKS := ZFS_MAXDATA / (MD5_SIZE + 2 * 8)

  function U32(): Format { Unsigned(W4) }
  function U64(): Format { Unsigned(W8) }
  function Two(f: Format): Format { Both(f, f) }
  function Three(f: Format): Format { Both(f, Two(f)) }
  function Four(f: Format): Format { Two(Two(f)) }
  function Five(f: Format): Format { Both(f, Four(f)) }

  /** What messages are made of. */
  datatype Part =
    | Word | Long | SignedWord | Char | Bulk | Filename | Path | Nodename | FileType | Speed
    | Fh | Cap | Fattr | Sattr

  function Layout(part: Part): Format {
    match part
    case Word => U32()
    case Long => U64()
    case SignedWord => Signed(W4)
    case Char => Signed(W1)
    case Bulk => Data
    case Filename => Text(ZFS_MAXNAMELEN)
    case Path => Text(ZFS_MAXPATHLEN)
    case Nodename => Text(ZFS_MAXNODELEN)
    case FileType => Choice(8)
    case Speed => Choice(3)
    case Fh => Five(U32())
    case Cap => Both(Five(U32()), Both(U32(), Fixed(ZFS_VERIFY_LEN)))
    case Fattr => Both(Two(U32()), Both(U64(), Both(Choice(8), Both(Five(U32()), Both(Two(U64()), Four(U32()))))))
    case Sattr => Both(Three(U32()), Both(U64(), Two(U32())))
  }

  /** The parts one after the other. */
  function Join(parts: seq<Part>): Format {
    if parts == [] then Nothing else Both(Layout(parts[0]), Join(parts[1..]))
  }

  datatype Procedure =
    | Null | Ping | Root | VolumeRoot | Getattr | Setattr | Lookup | Create | Open | Close | Readdir
    | Mkdir | Rmdir | Rename | Link | Unlink | Read | Write | Readlink | Symlink | Mknod
    | AuthStage1 | AuthStage2 | FileInfo | RereadConfig
    | Reintegrate | ReintegrateAdd | ReintegrateDel | ReintegrateVer | Invalidate

  /** Arguments of a call; the md5sum call is treated below. */
  function Request(p: Procedure): seq<Part> {
    match p
    case Null => []
    case Ping => [Bulk]
    case Root => []
    case VolumeRoot => [Word]
    case Getattr => [Fh]
    case Setattr => [Fh, Sattr]
    case Lookup => [Fh, Filename]
    case Create => [Fh, Filename, Word, Sattr]
    case Open => [Fh, Word]
    case Close => [Cap]
    case Readdir => [Cap, SignedWord, Word]
    case Mkdir => [Fh, Filename, Sattr]
    case Rmdir => [Fh, Filename]
    case Rename => [Fh, Filename, Fh, Filename]
    case Link => [Fh, Fh, Filename]
    case Unlink => [Fh, Filename]
    case Read => [Cap, Long, Word]
    case Write => [Cap, Long, Bulk]
    case Readlink => [Fh]
    case Symlink => [Fh, Filename, Path, Sattr]
    case Mknod => [Fh, Filename, Sattr, FileType, Word]
    case AuthStage1 => [Nodename]
    case AuthStage2 => [Speed]
    case FileInfo => [Fh]
    case RereadConfig => [Path]
    case Reintegrate => [Fh, Char]
    case ReintegrateAdd => [Fh, Fh, Filename]
    case ReintegrateDel => [Fh, Fh, Filename, Char]
    case ReintegrateVer => [Fh, Long]
    case Invalidate => [Fh]
  }

  /** What follows a status of success; a directory listing goes on with its entries, as
      many as the buffer takes. */
  function Reply(p: Procedure): seq<Part> {
    match p
    case Ping => [Bulk]
    case Root => [Fh]
    case VolumeRoot => [Fh, Fattr]
    case Getattr => [Fattr]
    case Setattr => [Fattr]
    case Lookup => [Fh, Fattr]
    case Create => [Cap, Fh, Fattr]
    case Open => [Cap]
    case Readdir => [Word, Char]
    case Mkdir => [Fh, Fattr]
    case Read => [Bulk, Long]
    case Write => [Word, Long]
    case Readlink => [Path]
    case Symlink => [Fh, Fattr]
    case Mknod => [Fh, Fattr]
    case AuthStage1 => [Nodename]
    case FileInfo => [Path]
    case _ => []
  }

  /** Length, direction, request id, then the function number or the status: 16 bytes. */
  function Header(reply: bool): Format {
    Both(Choice(3), Both(U32(), if reply then Signed(W4) else U32()))
  }

  function Body(p: Procedure, reply: bool): Format {
    Join(if reply then Reply(p) else Request(p))
  }

  // ----- sizes -----

  /** The most bytes a value of the format can take, with the zeros that may come before its
      numbers. */
  function Most(f: Format): nat {
    match f
    case Unsigned(w) => 2 * w.Bytes()
    case Signed(w) => 2 * w.Bytes()
    case Choice(_) => 1
    case Data => 7 + ZFS_MAXDATA
    case Fixed(length) => length
    case Text(max) => 8 + max
    case Nothing => 0
    case Both(a, b) => Most(a) + Most(b)
    case Times(count, item) => Repeated(count, Most(item))
  }

  /** `n` times `m`. */
  function Repeated(n: nat, m: nat): nat {
    if n == 0 then 0 else m + Repeated(n - 1, m)
  }

  lemma {:induction false} AtMost(f: Format, v: Value, at: nat)
    requires Fits(f, v)
    ensures |Encode(f, v, at)| <= Most(f)
    decreases f, 0
  {
    if f.Both? {
      AtMost(f.first, v.first, at);
      AtMost(f.second, v.second, at + |Encode(f.first, v.first, at)|);
    } else if f.Times? {
      ManyAtMost(f.item, v.items, at);
    }
  }

  lemma {:induction false} ManyAtMost(item: Format, vs: seq<Value>, at: nat)
    requires AllFit(item, vs)
    ensures |EncodeMany(item, vs, at)| <= Repeated(|vs|, Most(item))
    decreases item, 1, |vs|
  {
    if vs != [] {
      var front := vs[..|vs| - 1];
      ManyAtMost(item, front, at);
      AtMost(item, vs[|vs| - 1], at + |EncodeMany(item, front, at)|);
    }
  }

  /** What is left for arguments or results after the header. */
  const ROOM := ZFS_DC_SIZE - 32

  function Cost(part: Part): nat {
    match part
    case Word => 8
    case Long => 16
    case SignedWord => 8
    case Char => 2
    case Bulk => 8199
    case Filename => 263
    case Path => 1031
    case Nodename => 264
    case FileType => 1
    case Speed => 1
    case Fh => 40
    case Cap => 64
    case Fattr => 137
    case Sattr => 56
  }

  lemma {:induction false} FattrCost()
    ensures Most(Layout(Fattr)) <= Cost(Fattr)
  {
    assert Most(Five(U32())) == 40;
    assert Most(Both(Two(U64()), Four(U32()))) == 64;
    assert Most(Both(Choice(8), Both(Five(U32()), Both(Two(U64()), Four(U32()))))) == 105;
  }

  lemma {:induction false} CapCost()
    ensures Most(Layout(Cap)) <= Cost(Cap)
  {
    assert Most(Five(U32())) == 40;
  }

  lemma {:induction false} SattrCost()
    ensures Most(Layout(Sattr)) <= Cost(Sattr)
  {
    assert Most(Three(U32())) == 24;
  }

  lemma {:induction false} PartCost(part: Part)
    ensures Most(Layout(part)) <= Cost(part)
  {
    FattrCost();
    CapCost();
    SattrCost();
  }

  function Total(parts: seq<Part>): nat {
    if parts == [] then 0 else Cost(parts[0]) + Total(parts[1..])
  }

  lemma {:induction false} JoinCost(parts: seq<Part>)
    ensures Most(Join(parts)) <= Total(parts)
  {
    if parts != [] {
      PartCost(parts[0]);
      JoinCost(parts[1..]);
    }
  }

  lemma {:induction false} SmallTotal(parts: seq<Part>)
    requires Bulk !in parts
    ensures Total(parts) <= 1031 * |parts|
  {
    if parts != [] {
      SmallTotal(parts[1..]);
    }
  }

  predicate Bulky(p: Procedure) {
    p.Ping? || p.Read? || p.Write?
  }

  lemma {:induction false} SlimRequest(p: Procedure)
    requires !Bulky(p)
    ensures Bulk !in Request(p) && |Request(p)| <= 5
  {
  }

  lemma {:induction false} SlimReply(p: Procedure)
    requires !Bulky(p)
    ensures Bulk !in Reply(p) && |Reply(p)| <= 5
  {
  }

  /** No request and no reply of fixed shape, whatever its values, is longer than a buffer. */
  lemma {:induction false} BodyFits(p: Procedure, reply: bool)
    ensures Most(Body(p, reply)) <= ROOM
  {
    var parts := if reply then Reply(p) else Request(p);
    JoinCost(parts);
    if Bulky(p) {
      BulkyTotals();
    } else {
      SlimRequest(p);
      SlimReply(p);
      SmallTotal(parts);
    }
  }

  lemma {:induction false} BulkyTotals()
    ensures Total([Bulk]) == 8199 && Total([Bulk, Long]) == 8215 && Total([Cap, Long, Bulk]) == 8279
    ensures Total([Cap, Long, Word]) == 88 && Total([Word, Long]) == 24
  {
    assert [Bulk, Long][1..] == [Long] && [Cap, Long, Bulk][1..] == [Long, Bulk] && [Long, Bulk][1..] == [Bulk];
    assert [Word, Long][1..] == [Long] && [Cap, Long, Word][1..] == [Long, Word] && [Long, Word][1..] == [Word];
    assert Total([Long]) == 16 && Total([Word]) == 8;
    assert Total([Long, Word]) == 24 && Total([Long, Bulk]) == 8215;
  }

  lemma {:induction false} HeaderFits(reply: bool)
    ensures Most(Header(reply)) <= 17
  {
  }

  /** A call, or a successful reply, with its header. */
  function Message(p: Procedure, reply: bool): Format {
    Both(Header(reply), Body(p, reply))
  }

  /** Every call, and every successful reply, can be packed. */
  lemma {:induction false} MessageFits(p: Procedure, reply: bool, v: Value)
    requires Fits(Message(p, reply), v)
    ensures 4 + |Encode(Message(p, reply), v, 4)| <= ZFS_DC_SIZE
  {
    BodyFits(p, reply);
    HeaderFits(reply);
    AtMost(Message(p, reply), v, 4);
  }

  /** What the packet of a message is; it always exists. */
  function MessagePacket(p: Procedure, reply: bool, v: Value): seq<Byte>
    requires Fits(Message(p, reply), v)
  {
    MessageFits(p, reply, v);
    Packet(Message(p, reply), v)
  }

  /** It gives the message back from any buffer that starts with it. */
  lemma {:induction false} MessageRoundTrip(p: Procedure, reply: bool, v: Value, buffer: seq<Byte>)
    requires Fits(Message(p, reply), v) && |buffer| >= ZFS_DC_SIZE && MessagePacket(p, reply, v) <= buffer
    ensures Unpack(Message(p, reply), buffer) == Some(v)
  {
    MessageFits(p, reply, v);
    PacketRoundTrip(Message(p, reply), v, buffer);
  }

  // ----- checksums: arrays whose length is itself sent -----

  /** Offsets and lengths of `count` chunks. */
  function Chunks(count: nat): Format {
    Both(Times(count, U64()), Times(count, U32()))
  }

  /** Such a message: the fields up to the one after which the count is checked, whether the
      count is the whole of them or follows a first field, the fields before the arrays, and
      whether the arrays include the checksums. */
  datatype Counted = Counted(head: Format, inside: bool, before: Format, sums: bool) {
    function Count(x: Value): int {
      if !inside then if x.Num? then x.n else -1
      else if x.Pair? && x.second.Pair? && x.second.first.Num? then x.second.first.n else -1
    }

    function Tail(count: nat): Format {
      Both(before, Both(Chunks(count), if sums then Times(count, Fixed(MD5_SIZE)) else Nothing))
    }
  }

  const MD5SUM_ARGS := Counted(Join([Cap, Word, Char]), true, Nothing, false)
  const MD5SUM_RES := Counted(U32(), false, Two(U64()), true)

  lemma {:induction false} Md5ArgsCosts()
    ensures Most(MD5SUM_ARGS.head) <= 80 && Most(MD5SUM_ARGS.before) <= 32
  {
    var parts := [Cap, Word, Char];
    JoinCost(parts);
    assert parts[1..] == [Word, Char] && [Word, Char][1..] == [Char];
    assert Total([Char]) == 2;
  }

  lemma {:induction false} Md5ResCosts()
    ensures Most(MD5SUM_RES.head) <= 80 && Most(MD5SUM_RES.before) <= 32
  {
  }

  lemma {:induction false} AlignedBehind(w: Width, at: nat)
    ensures Align(Align(at, w) + w.Bytes(), w) == Align(at, w) + w.Bytes()
  {
    match w
    case W1 =>
    case W2 =>
      var m := (at + 1) / 2;
      assert (2 * m + 3) / 2 == m + 1;
    case W4 =>
      var m := (at + 3) / 4;
      assert (4 * m + 7) / 4 == m + 1;
    case W8 =>
      var m := (at + 7) / 8;
      assert (8 * m + 15) / 8 == m + 1;
  }

  lemma {:induction false} LastNumber(w: Width, vs: seq<Value>, at: nat)
    requires AllFit(Unsigned(w), vs) && vs != []
    ensures var pos := at + |EncodeMany(Unsigned(w), vs[..|vs| - 1], at)|;
            pos + |EncodeLast(Unsigned(w), vs, at)| == Align(pos, w) + w.Bytes()
  {
    var pos := at + |EncodeMany(Unsigned(w), vs[..|vs| - 1], at)|;
    var v := vs[|vs| - 1];
    assert Encode(Unsigned(w), v, pos) == EncodeField(Unsigned(w), v, pos);
  }

  /** An array takes its numbers and the zeros before the first; there are none between them. */
  lemma {:induction false} NumbersTake(w: Width, vs: seq<Value>, at: nat)
    requires AllFit(Unsigned(w), vs)
    ensures vs != [] ==> at + |EncodeMany(Unsigned(w), vs, at)| == Align(at, w) + Repeated(|vs|, w.Bytes())
    ensures vs != [] ==> Align(at + |EncodeMany(Unsigned(w), vs, at)|, w) == at + |EncodeMany(Unsigned(w), vs, at)|
    decreases |vs|
  {
    if vs != [] {
      var front := vs[..|vs| - 1];
      NumbersTake(w, front, at);
      LastNumber(w, vs, at);
      AlignedBehind(w, at + |EncodeMany(Unsigned(w), front, at)|);
    }
  }

  lemma {:induction false} NumbersAtMost(w: Width, vs: seq<Value>, at: nat)
    requires AllFit(Unsigned(w), vs)
    ensures |EncodeMany(Unsigned(w), vs, at)| <= w.Bytes() - 1 + Repeated(|vs|, w.Bytes())
  {
    NumbersTake(w, vs, at);
  }

  lemma {:induction false} RepeatedIs(n: nat)
    ensures Repeated(n, 4) == 4 * n && Repeated(n, 8) == 8 * n
  {
    if n > 0 {
      RepeatedIs(n - 1);
    }
  }

  lemma {:induction false} SumsTake(vs: seq<Value>, at: nat)
    requires AllFit(Fixed(MD5_SIZE), vs)
    ensures |EncodeMany(Fixed(MD5_SIZE), vs, at)| == 16 * |vs|
    decreases |vs|
  {
    if vs != [] {
      var front, v := vs[..|vs| - 1], vs[|vs| - 1];
      SumsTake(front, at);
      var pos := at + |EncodeMany(Fixed(MD5_SIZE), front, at)|;
      assert Encode(Fixed(MD5_SIZE), v, pos) == EncodeField(Fixed(MD5_SIZE), v, pos);
    }
  }

  lemma {:induction false} ArrayIs(count: nat, item: Format, v: Value, at: nat)
    requires Fits(Times(count, item), v)
    ensures Encode(Times(count, item), v, at) == EncodeMany(item, v.items, at)
  {
  }

  lemma {:induction false} ChunksTake(count: nat, v: Value, at: nat)
    requires Fits(Chunks(count), v)
    ensures |Encode(Chunks(count), v, at)| <= 10 + 12 * count
  {
    RepeatedIs(count);
    ArrayIs(count, U64(), v.first, at);
    NumbersAtMost(W8, v.first.items, at);
    var next := at + |Encode(Times(count, U64()), v.first, at)|;
    ArrayIs(count, U32(), v.second, next);
    NumbersAtMost(W4, v.second.items, next);
  }

  lemma {:induction false} ArraysTake(sums: bool, count: nat, v: Value, at: nat)
    requires Fits(Both(Chunks(count), if sums then Times(count, Fixed(MD5_SIZE)) else Nothing), v)
    ensures |Encode(Both(Chunks(count), if sums then Times(count, Fixed(MD5_SIZE)) else Nothing), v, at)| <= 10 + 28 * count
  {
    ChunksTake(count, v.first, at);
    if sums {
      var next := at + |Encode(Chunks(count), v.first, at)|;
      ArrayIs(count, Fixed(MD5_SIZE), v.second, next);
      SumsTake(v.second.items, next);
    }
  }

  lemma {:induction false} TailTakes(c: Counted, count: nat, y: Value, at: nat)
    requires Most(c.before) <= 32 && Fits(c.Tail(count), y)
    ensures |Encode(c.Tail(count), y, at)| <= 42 + 28 * count
  {
    AtMost(c.before, y.first, at);
    ArraysTake(c.sums, count, y.second, at + |Encode(c.before, y.first, at)|);
  }

  /** With at most ZFS_MAX_MD5_CHUNKS chunks the message fits behind any header, so encoding
      it cannot fail. */
  lemma {:induction false} CountedFits(c: Counted, count: nat, x: Value, y: Value, at: nat)
    requires count <= ZFS_MAX_MD5_CHUNKS && at <= 32 && Most(c.head) <= 80 && Most(c.before) <= 32
    requires Fits(c.head, x) && Fits(c.Tail(count), y)
    ensures at + |EncodeTwo(c.head, c.Tail(count), x, y, at)| <= ZFS_DC_SIZE
  {
    AtMost(c.head, x, at);
    TailTakes(c, count, y, at + |Encode(c.head, x, at)|);
  }

  /** So neither the arguments nor the result of the md5sum call can be too long. */
  lemma {:induction false} ChecksumsFit(c: Counted, count: nat, x: Value, y: Value, at: nat)
    requires c in {MD5SUM_ARGS, MD5SUM_RES} && count <= ZFS_MAX_MD5_CHUNKS && at <= 32
    requires Fits(c.head, x) && Fits(c.Tail(count), y)
    ensures at + |EncodeTwo(c.head, c.Tail(count), x, y, at)| <= ZFS_DC_SIZE
  {
    Md5ArgsCosts();
    Md5ResCosts();
    CountedFits(c, count, x, y, at);
  }

  /** Two values one after the other. */
  function EncodeTwo(a: Format, b: Format, x: Value, y: Value, at: nat): (r: seq<Byte>)
    requires Fits(a, x) && Fits(b, y)
  {
    var first := Encode(a, x, at);
    first + Encode(b, y, at + |first|)
  }

  lemma {:induction false} EncodeTwoIs(a: Format, b: Format, x: Value, y: Value, at: nat)
    requires Fits(a, x) && Fits(b, y)
    ensures Fits(Both(a, b), Pair(x, y)) && Encode(Both(a, b), Pair(x, y), at) == EncodeTwo(a, b, x, y, at)
  {
  }

  /** Decoding: the head, then as many elements as it says, if that is not too many. */
  function DecodeCounted(c: Counted, rest: seq<Byte>, at: nat): (r: DecodedValue) {
    match Decode(c.head, rest, at)
    case NoValue => NoValue
    case AValue(x, more) =>
      var n := c.Count(x);
      if n < 0 || n > ZFS_MAX_MD5_CHUNKS then NoValue
      else match Decode(c.Tail(n), more, at + |rest| - |more|)
        case NoValue => NoValue
        case AValue(y, end) => AValue(Pair(x, y), end)
  }

  /** A checksum message with at most ZFS_MAX_MD5_CHUNKS chunks comes back as it was. */
  lemma {:induction false} CountedRoundTrip(c: Counted, x: Value, y: Value, at: nat, tail: seq<Byte>)
    requires Fits(c.head, x) && 0 <= c.Count(x) <= ZFS_MAX_MD5_CHUNKS && Fits(c.Tail(c.Count(x)), y)
    ensures DecodeCounted(c, EncodeTwo(c.head, c.Tail(c.Count(x)), x, y, at) + tail, at) == AValue(Pair(x, y), tail)
  {
    var tail2 := c.Tail(c.Count(x));
    var first := Encode(c.head, x, at);
    var second := Encode(tail2, y, at + |first|);
    TwoBytes(c.head, tail2, x, y, first, second, at);
    BytesDecoded(c.head, x, first, at, second + tail);
    BytesDecoded(tail2, y, second, at + |first|, tail);
    CountedStep(c, tail2, x, y, first, second, tail, at);
  }

  lemma {:induction false} BytesDecoded(f: Format, v: Value, bytes: seq<Byte>, at: nat, tail: seq<Byte>)
    requires Fits(f, v) && bytes == Encode(f, v, at)
    ensures Decode(f, bytes + tail, at) == AValue(v, tail)
  {
    RoundTrip(f, v, at, tail);
  }

  lemma {:induction false} TwoBytes(a: Format, b: Format, x: Value, y: Value, first: seq<Byte>, second: seq<Byte>, at: nat)
    requires Fits(a, x) && Fits(b, y) && first == Encode(a, x, at) && second == Encode(b, y, at + |first|)
    ensures EncodeTwo(a, b, x, y, at) == first + second
  {
  }

  lemma {:induction false} CountedStep(c: Counted, t: Format, x: Value, y: Value,
                                       first: seq<Byte>, second: seq<Byte>, tail: seq<Byte>, at: nat)
    requires 0 <= c.Count(x) <= ZFS_MAX_MD5_CHUNKS && t == c.Tail(c.Count(x))
    requires Decode(c.head, first + (second + tail), at) == AValue(x, second + tail)
    requires Decode(t, second + tail, at + |first|) == AValue(y, tail)
    ensures DecodeCounted(c, first + second + tail, at) == AValue(Pair(x, y), tail)
  {
    Regroup(first, second, tail);
  }
}
