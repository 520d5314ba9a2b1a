/** The coding buffer: a cursor kept twice, as a pointer and as an offset, that every coder
    moves on while it writes or reads the buffer in place. */
module DataCoding {
  import opened Contents
  import opened Options
  import opened Wire
  import opened Messages

  /** Aligning a pointer is aligning an offset when the buffer starts at a multiple of 16. */
  lemma {:induction false} PointerAlignsLikeOffset(base: nat, at: nat, w: Width)
    requires base % 16 == 0
    ensures Align(base + at, w) == base + Align(at, w)
  {
    var q := base / 16;
    assert base == 16 * q;
    assert (16 * q + at + 1) / 2 == 8 * q + (at + 1) / 2;
    assert (16 * q + at + 3) / 4 == 4 * q + (at + 3) / 4;
    assert (16 * q + at + 7) / 8 == 2 * q + (at + 7) / 8;
  }

  lemma {:induction false} PatchedTwice(s: seq<Byte>, start: nat, a: seq<Byte>, b: seq<Byte>)
    requires start + |a| + |b| <= |s|
    ensures Patch(Patch(s, start, a), start + |a|, b) == Patch(s, start, a + b)
  {
  }

  class DC {
    const buffer: array<Byte>
    /** Address of the buffer. */
    const base: nat
    var curPos: nat
    var curLength: nat
    var maxLength: nat

    ghost predicate Valid()
      reads this
    {
      && base % 16 == 0 && buffer.Length == ZFS_DC_SIZE
      && curLength <= maxLength <= ZFS_DC_SIZE && curPos == base + curLength
    }

    /** What has been coded so far. */
    ghost function Done(): seq<Byte>
      reads this, buffer
      requires Valid()
    {
      buffer[..curLength]
    }

    /** Reserve a buffer of ZFS_DC_SIZE bytes at a multiple of 16 within the ZFS_DC_SIZE + 15
        bytes at `address`. */
    constructor (address: nat)
      ensures Valid() && curLength == 0
      ensures address <= base && base + buffer.Length <= address + ZFS_DC_SIZE + 15
    {
      buffer := new Byte[ZFS_DC_SIZE](_ => 0);
      base := (address + 15) / 16 * 16;
      curPos, curLength, maxLength := (address + 15) / 16 * 16, 0, ZFS_DC_SIZE;
    }

    // ----- encoding -----

    /** Copy `bytes` to an address within the buffer. */
    method Fill(address: nat, bytes: seq<Byte>)
      requires base <= address && address - base + |bytes| <= buffer.Length
      modifies buffer
      ensures buffer[..] == Patch(old(buffer[..]), address - base, bytes)
    {
      var start := address - base;
      forall i | 0 <= i < |bytes| {
        buffer[start + i] := bytes[i];
      }
    }

    /** Copy `bytes` to the cursor and move it. */
    method Put(bytes: seq<Byte>)
      requires base <= curPos && curPos - base + |bytes| <= buffer.Length
      modifies buffer, this`curPos
      ensures curPos == old(curPos) + |bytes|
      ensures buffer[..] == Patch(old(buffer[..]), old(curPos) - base, bytes)
    {
      Fill(curPos, bytes);
      curPos := curPos + |bytes|;
    }

    /** A number; the bytes skipped for alignment are cleared. */
    method EncodeNumber(n: nat, w: Width) returns (ok: bool)
      requires Valid() && n < Limit(w)
      modifies this`curPos, this`curLength, buffer
      ensures Valid()
      ensures ok <==> Align(old(curLength), w) + w.Bytes() <= maxLength
      ensures ok ==> Done() == old(Done()) + Wire.EncodeNumber(n, w, old(curLength))
      ensures ok ==> buffer[..][curLength..] == old(buffer[..])[curLength..]
      ensures !ok ==> curLength == old(curLength) && buffer[..] == old(buffer[..])
      ensures buffer[..old(curLength)] == old(Done())
    {
      var prev := curLength;
      curLength := Align(curLength, w) + w.Bytes();
      if curLength > maxLength {
        curLength := prev;
        return false;
      }
      PointerAlignsLikeOffset(base, prev, w);
      PutAligned(Align(curPos, w) - curPos, LittleEndian(n, w.Bytes()));
      return true;
    }

    /** Copy `bytes` behind `pad` zeros. */
    method PutAligned(pad: nat, bytes: seq<Byte>)
      requires base <= curPos && curPos - base + pad + |bytes| <= buffer.Length
      modifies buffer, this`curPos
      ensures curPos == old(curPos) + pad + |bytes|
      ensures buffer[..] == Patch(old(buffer[..]), old(curPos) - base, Zeros(pad) + bytes)
    {
      PatchedTwice(buffer[..], curPos - base, Zeros(pad), bytes);
      Put(Zeros(pad));
      Put(bytes);
    }

    /** Bytes as they are. */
    method EncodeFixed(bytes: seq<Byte>) returns (ok: bool)
      requires Valid()
      modifies this`curPos, this`curLength, buffer
      ensures Valid()
      ensures ok <==> old(curLength) + |bytes| <= maxLength
      ensures ok ==> Done() == old(Done()) + bytes
      ensures !ok ==> curLength == old(curLength) && buffer[..] == old(buffer[..])
      ensures buffer[..old(curLength)] == old(Done())
    {
      var prev := curLength;
      curLength := curLength + |bytes|;
      if curLength > maxLength {
        curLength := prev;
        return false;
      }
      Put(bytes);
      return true;
    }

    /** A data buffer.  When it does not fit, its length may have been written already. */
    method EncodeData(bytes: seq<Byte>) returns (ok: bool)
      requires Valid() && Fits(Data, Raw(bytes))
      modifies this`curPos, this`curLength, buffer
      ensures Valid()
      ensures ok <==> old(curLength) + |EncodeField(Data, Raw(bytes), old(curLength))| <= maxLength
      ensures ok ==> Done() == old(Done()) + EncodeField(Data, Raw(bytes), old(curLength))
      ensures !ok ==> old(Done()) <= Done()
      ensures buffer[..old(curLength)] == old(Done())
    {
      ghost var at, before := curLength, Done();
      ghost var number := Wire.EncodeNumber(|bytes|, W4, at);
      assert EncodeField(Data, Raw(bytes), at) == number + bytes;
      ok := EncodeNumber(|bytes|, W4);
      if ok {
        ok := EncodeFixed(bytes);
        assert buffer[..at] == buffer[..at + |number|][..at];
        if ok {
          assert Done() == before + number + bytes == before + (number + bytes);
        }
      }
    }

    /** A string.  When it does not fit, the offset goes back and the pointer does not: the
        two agree again only if not even the length could be written. */
    method EncodeText(limit: TextLimit, bytes: seq<Byte>) returns (ok: bool)
      requires Valid() && Fits(Text(limit), Raw(bytes))
      modifies this`curPos, this`curLength, buffer
      ensures ok ==> Valid()
      ensures ok <==> old(curLength) + |EncodeField(Text(limit), Raw(bytes), old(curLength))| <= maxLength
      ensures ok ==> Done() == old(Done()) + EncodeField(Text(limit), Raw(bytes), old(curLength))
      ensures buffer[..old(curLength)] == old(Done())
      ensures !ok ==> curLength == old(curLength)
      ensures !ok ==> (curPos == base + curLength <==> Align(old(curLength), W4) + 4 > maxLength)
    {
      var prev := curLength;
      ghost var before, number := Done(), Wire.EncodeNumber(|bytes|, W4, prev);
      assert EncodeField(Text(limit), Raw(bytes), prev) == number + (bytes + [0]);
      ok := EncodeNumber(|bytes|, W4);
      if ok {
        ok := EncodeTerminated(prev, bytes);
        assert buffer[..prev] == buffer[..prev + |number|][..prev];
        if ok {
          assert Done() == before + number + (bytes + [0]) == before + (number + (bytes + [0]));
        }
      }
    }

    /** The bytes of a string and a zero; if they do not fit, the offset goes back to `prev`. */
    method EncodeTerminated(prev: nat, bytes: seq<Byte>) returns (ok: bool)
      requires Valid() && prev <= curLength
      modifies this`curPos, this`curLength, buffer
      ensures ok <==> old(curLength) + |bytes| + 1 <= maxLength
      ensures ok ==> Valid() && Done() == old(Done()) + (bytes + [0])
      ensures !ok ==> curLength == prev && curPos == old(curPos)
      ensures buffer[..old(curLength)] == old(Done())
    {
      curLength := curLength + |bytes| + 1;
      ok := curLength <= maxLength;
      if ok {
        Put(bytes + [0]);
      } else {
        curLength := prev;
      }
    }

    /** Any value within the limits of its format: fields one after the other, up to the first
        that does not fit. */
    method EncodeValue(f: Format, v: Value) returns (ok: bool)
      requires Valid() && Fits(f, v)
      modifies this`curPos, this`curLength, buffer
      ensures ok ==> Valid()
      ensures ok <==> old(curLength) + |Encode(f, v, old(curLength))| <= maxLength
      ensures ok ==> Done() == old(Done()) + Encode(f, v, old(curLength))
      ensures old(curLength) <= buffer.Length && buffer[..old(curLength)] == old(Done())
      decreases f, 1
    {
      if f.Both? {
        ok := EncodeBoth(f, v);
      } else if f.Times? {
        ok := EncodeEach(f.item, v.items);
      } else {
        ok := EncodeOne(f, v);
      }
    }

    /** A single field. */
    method EncodeOne(f: Format, v: Value) returns (ok: bool)
      requires Valid() && Fits(f, v) && !f.Both? && !f.Times?
      modifies this`curPos, this`curLength, buffer
      ensures ok ==> Valid()
      ensures ok <==> old(curLength) + |EncodeField(f, v, old(curLength))| <= maxLength
      ensures ok ==> Done() == old(Done()) + EncodeField(f, v, old(curLength))
      ensures old(curLength) <= buffer.Length && buffer[..old(curLength)] == old(Done())
    {
      if f.Data? {
        ok := EncodeData(v.bytes);
      } else if f.Fixed? {
        ok := EncodeFixed(v.bytes);
      } else if f.Text? {
        ok := EncodeText(f.max, v.bytes);
      } else if f.Nothing? {
        ok := true;
      } else {
        ok := EncodeScalar(f, v);
      }
    }

    method EncodeScalar(f: Format, v: Value) returns (ok: bool)
      requires Valid() && Fits(f, v) && (f.Unsigned? || f.Signed? || f.Choice?)
      modifies this`curPos, this`curLength, buffer
      ensures Valid()
      ensures ok <==> old(curLength) + |EncodeField(f, v, old(curLength))| <= maxLength
      ensures ok ==> Done() == old(Done()) + EncodeField(f, v, old(curLength))
      ensures ok ==> buffer[..][curLength..] == old(buffer[..])[curLength..]
      ensures !ok ==> curLength == old(curLength) && buffer[..] == old(buffer[..])
      ensures buffer[..old(curLength)] == old(Done())
    {
      match f {
        case Unsigned(w) => ok := EncodeNumber(v.n, w);
        case Signed(w) => ok := EncodeNumber(ToUnsigned(v.n, w), w);
        case Choice(_) => ok := EncodeNumber(v.n, W1);
      }
    }

    method EncodeBoth(f: Format, v: Value) returns (ok: bool)
      requires Valid() && Fits(f, v) && f.Both?
      modifies this`curPos, this`curLength, buffer
      ensures ok ==> Valid()
      ensures ok <==> old(curLength) + |Encode(f, v, old(curLength))| <= maxLength
      ensures ok ==> Done() == old(Done()) + Encode(f, v, old(curLength))
      ensures old(curLength) <= buffer.Length && buffer[..old(curLength)] == old(Done())
      decreases f, 0
    {
      ghost var at, one := curLength, Encode(f.first, v.first, curLength);
      ghost var two := Encode(f.second, v.second, at + |one|);
      assert Encode(f, v, at) == one + two;
      ghost var before := Done();
      ok := EncodeValue(f.first, v.first);
      if ok {
        assert Done() == before + one;
        ok := EncodeValue(f.second, v.second);
        assert buffer[..at] == buffer[..at + |one|][..at];
        if ok {
          assert Done() == before + one + two == before + (one + two);
        }
      }
    }

    /** The elements of an array, in a loop. */
    method EncodeEach(item: Format, vs: seq<Value>) returns (ok: bool)
      requires Valid() && AllFit(item, vs)
      modifies this`curPos, this`curLength, buffer
      ensures ok ==> Valid()
      ensures ok <==> old(curLength) + |EncodeMany(item, vs, old(curLength))| <= maxLength
      ensures ok ==> Done() == old(Done()) + EncodeMany(item, vs, old(curLength))
      ensures old(curLength) <= buffer.Length && buffer[..old(curLength)] == old(Done())
      decreases item, 3
    {
      ok := true;
      ghost var before := Done();
      assert vs[..0] == [];
      for i := 0 to |vs|
        invariant Valid() && ok && old(curLength) <= curLength
        invariant buffer[..old(curLength)] == before
        invariant Done() == before + EncodeMany(item, vs[..i], old(curLength))
      {
        FewerTakeLess(item, vs, i + 1, old(curLength));
        assert vs[..i + 1][..i] == vs[..i];
        ok := EncodeNext(item, vs[..i + 1], before);
        if !ok {
          return;
        }
      }
      assert vs[..|vs|] == vs;
    }

    /** The last element of `vs`, the others being encoded behind `before`. */
    method EncodeNext(item: Format, vs: seq<Value>, ghost before: seq<Byte>) returns (ok: bool)
      requires Valid() && AllFit(item, vs) && vs != [] && |before| <= curLength && buffer[..|before|] == before
      requires Done() == before + EncodeMany(item, vs[..|vs| - 1], |before|)
      modifies this`curPos, this`curLength, buffer
      ensures ok ==> Valid() && |before| <= curLength && Done() == before + EncodeMany(item, vs, |before|)
      ensures ok <==> |before| + |EncodeMany(item, vs, |before|)| <= maxLength
      ensures buffer[..|before|] == before
      decreases item, 2
    {
      ghost var done, here := Done(), curLength;
      ghost var front := EncodeMany(item, vs[..|vs| - 1], |before|);
      ghost var last := Encode(item, vs[|vs| - 1], here);
      assert EncodeMany(item, vs, |before|) == front + last;
      ok := EncodeValue(item, vs[|vs| - 1]);
      assert buffer[..|before|] == buffer[..here][..|before|];
      if ok {
        Appended(before, done, Done(), front, last);
      }
    }

    /** The buffer is where it belongs; nothing is said of the cursor. */
    ghost predicate Placed()
      reads this
    {
      base % 16 == 0 && buffer.Length == ZFS_DC_SIZE
    }

    /** Leave room for the length of the packet. */
    method StartEncoding()
      requires Placed()
      modifies this`curPos, this`curLength, this`maxLength, buffer
      ensures Valid() && curLength == 4 && maxLength == ZFS_DC_SIZE
    {
      curPos, curLength, maxLength := base, 0, ZFS_DC_SIZE;
      var _ := EncodeNumber(0, W4);
    }

    /** Fill in the length of the packet. */
    method FinishEncoding() returns (length: nat)
      requires Valid() && curLength >= 4
      modifies buffer
      ensures length == curLength && Done() == LittleEndian(curLength, 4) + old(Done())[4..]
    {
      var number := LittleEndian(curLength, 4);
      ghost var before := buffer[..];
      forall i | 0 <= i < 4 {
        buffer[i] := number[i];
      }
      assert buffer[..] == Patch(before, 0, number);
      assert buffer[..curLength] == number + before[4..curLength];
      length := curLength;
    }

    /** A whole packet; it is made exactly when it fits the buffer. */
    method EncodePacket(f: Format, v: Value) returns (ok: bool, length: nat)
      requires Placed() && Fits(f, v)
      modifies this`curPos, this`curLength, this`maxLength, buffer
      ensures ok <==> 4 + |Encode(f, v, 4)| <= ZFS_DC_SIZE
      ensures ok ==> length <= buffer.Length && buffer[..length] == Packet(f, v)
    {
      StartEncoding();
      ok := EncodeValue(f, v);
      length := 0;
      if ok {
        length := FinishEncoding();
        assert length == 4 + |Encode(f, v, 4)|;
      }
    }

    /** A call, or a successful reply.  It always fits. */
    method EncodeMessage(p: Procedure, reply: bool, v: Value) returns (length: nat)
      requires Placed() && Fits(Message(p, reply), v)
      modifies this`curPos, this`curLength, this`maxLength, buffer
      ensures length <= buffer.Length && buffer[..length] == MessagePacket(p, reply, v)
    {
      MessageFits(p, reply, v);
      var _, n := EncodePacket(Message(p, reply), v);
      length := n;
    }

    /** A checksum message.  The outcome of encoding is not looked at, because it cannot fail. */
    method EncodeCounted(c: Counted, count: nat, x: Value, y: Value)
      requires Valid() && curLength <= 32 && maxLength == ZFS_DC_SIZE
      requires c in {MD5SUM_ARGS, MD5SUM_RES} && count <= ZFS_MAX_MD5_CHUNKS
      requires Fits(c.head, x) && Fits(c.Tail(count), y)
      modifies this`curPos, this`curLength, buffer
      ensures Valid() && Done() == old(Done()) + EncodeTwo(c.head, c.Tail(count), x, y, old(curLength))
    {
      ChecksumsFit(c, count, x, y, curLength);
      EncodeTwoIs(c.head, c.Tail(count), x, y, curLength);
      var _ := EncodeValue(Both(c.head, c.Tail(count)), Pair(x, y));
    }

    // ----- decoding -----

    /** What is still to be decoded. */
    ghost function Rest(): seq<Byte>
      reads this, buffer
      requires Valid()
    {
      buffer[curLength..maxLength]
    }

    /** The outcome `r` is what was to be found, and the cursor is behind it. */
    ghost predicate Matches(d: DecodedValue, r: Option<Value>)
      reads this, buffer
    {
      && (r.Some? <==> d.AValue?)
      && (r.Some? ==> Valid() && r.value == d.value && Rest() == d.rest)
    }

    /** Copy `length` bytes from the cursor and move it. */
    method Take(length: nat) returns (bytes: seq<Byte>)
      requires base <= curPos && curPos - base + length <= buffer.Length
      modifies this`curPos
      ensures curPos == old(curPos) + length
      ensures bytes == buffer[old(curPos) - base..old(curPos) - base + length]
    {
      bytes := buffer[curPos - base..curPos - base + length];
      curPos := curPos + length;
    }

    method DecodeNumber(w: Width) returns (ok: bool, n: nat)
      requires Valid()
      modifies this`curPos, this`curLength
      ensures ok ==> Valid()
      ensures ok <==> Wire.DecodeNumber(old(Rest()), w, old(curLength)).ANumber?
      ensures ok ==> ANumber(n, Rest()) == Wire.DecodeNumber(old(Rest()), w, old(curLength))
    {
      n := 0;
      ghost var at := curLength;
      curLength := Align(curLength, w) + w.Bytes();
      NumberAt(buffer[..], at, maxLength, w);
      if curLength > maxLength {
        return false, 0;
      }
      n := TakeNumber(w, at);
      ok := true;
    }

    /** The number behind offset `at`, where the cursor is. */
    method TakeNumber(w: Width, ghost at: nat) returns (n: nat)
      requires Placed() && curPos == base + at && Align(at, w) + w.Bytes() <= buffer.Length
      modifies this`curPos
      ensures curPos == base + Align(at, w) + w.Bytes()
      ensures n == FromLittleEndian(buffer[Align(at, w)..Align(at, w) + w.Bytes()])
    {
      PointerAlignsLikeOffset(base, at, w);
      curPos := Align(curPos, w);
      var bytes := Take(w.Bytes());
      n := FromLittleEndian(bytes);
    }

    method DecodeFixed(length: nat) returns (ok: bool, bytes: seq<Byte>)
      requires Valid()
      modifies this`curPos, this`curLength
      ensures ok <==> length <= |old(Rest())|
      ensures ok ==> Valid() && bytes == old(Rest())[..length] && Rest() == old(Rest())[length..]
    {
      bytes := [];
      curLength := curLength + length;
      ok := curLength <= maxLength;
      if ok {
        Behind(buffer[..], old(curLength), maxLength, 0, length);
        bytes := Take(length);
      }
    }

    method DecodeData() returns (ok: bool, bytes: seq<Byte>)
      requires Valid()
      modifies this`curPos, this`curLength
      ensures ok ==> Valid()
      ensures ok <==> DecodeField(Data, old(Rest()), old(curLength)).AValue?
      ensures ok ==> AValue(Raw(bytes), Rest()) == DecodeField(Data, old(Rest()), old(curLength))
    {
      bytes := [];
      var length;
      ok, length := DecodeNumber(W4);
      if ok {
        if length > ZFS_MAXDATA {
          return false, [];
        }
        ok, bytes := DecodeFixed(length);
      }
    }

    /** A string; the byte behind it is set to zero in the buffer. */
    method DecodeText(limit: TextLimit) returns (ok: bool, bytes: seq<Byte>)
      requires Valid()
      modifies this`curPos, this`curLength, buffer
      ensures ok ==> Valid()
      ensures ok <==> DecodeField(Text(limit), old(Rest()), old(curLength)).AValue?
      ensures ok ==> AValue(Raw(bytes), Rest()) == DecodeField(Text(limit), old(Rest()), old(curLength))
    {
      bytes := [];
      var length;
      ok, length := DecodeNumber(W4);
      if ok {
        if length > limit {
          return false, [];
        }
        ghost var more := Rest();
        ok, bytes := DecodeFixed(length + 1);
        if ok {
          bytes := bytes[..length];
          assert bytes == more[..length];
          buffer[curPos - base - 1] := 0;
          assert Rest() == more[length + 1..];
        }
      }
    }

    /** A value of any format: fields one after the other, up to the first that is missing or
        exceeds its limits. */
    method DecodeValue(f: Format) returns (r: Option<Value>)
      requires Valid()
      modifies this`curPos, this`curLength, buffer
      ensures Matches(Decode(f, old(Rest()), old(curLength)), r)
      decreases f, 1
    {
      if f.Both? {
        r := DecodeBoth(f);
      } else if f.Times? {
        r := DecodeEach(f);
      } else {
        r := DecodeOne(f);
      }
    }

    method DecodeOne(f: Format) returns (r: Option<Value>)
      requires Valid() && !f.Both? && !f.Times?
      modifies this`curPos, this`curLength, buffer
      ensures Matches(DecodeField(f, old(Rest()), old(curLength)), r)
    {
      var ok := true;
      match f {
        case Unsigned(w) =>
          var n;
          ok, n := DecodeNumber(w);
          r := if ok then Some(Num(n)) else None;
        case Signed(w) =>
          var n;
          ok, n := DecodeNumber(w);
          r := if ok then Some(Num(ToSigned(n, w))) else None;
        case Choice(limit) =>
          var n;
          ok, n := DecodeNumber(W1);
          r := if ok && n < limit then Some(Num(n)) else None;
        case Data =>
          var bytes;
          ok, bytes := DecodeData();
          r := if ok then Some(Raw(bytes)) else None;
        case Fixed(length) =>
          var bytes;
          ok, bytes := DecodeFixed(length);
          r := if ok then Some(Raw(bytes)) else None;
        case Text(limit) =>
          var bytes;
          ok, bytes := DecodeText(limit);
          r := if ok then Some(Raw(bytes)) else None;
        case Nothing =>
          r := Some(Unit);
      }
    }

    method DecodeBoth(f: Format) returns (r: Option<Value>)
      requires Valid() && f.Both?
      modifies this`curPos, this`curLength, buffer
      ensures Matches(Decode(f, old(Rest()), old(curLength)), r)
      decreases f, 0
    {
      var first := DecodeValue(f.first);
      if first.None? {
        return None;
      }
      var second := DecodeValue(f.second);
      if second.None? {
        return None;
      }
      r := Some(Pair(first.value, second.value));
    }

    /** The elements of an array, in a loop. */
    method DecodeEach(f: Format) returns (r: Option<Value>)
      requires Valid() && f.Times?
      modifies this`curPos, this`curLength, buffer
      ensures Matches(Decode(f, old(Rest()), old(curLength)), r)
      decreases f, 0
    {
      ghost var rest, at := Rest(), curLength;
      var vs: seq<Value> := [];
      for i := 0 to f.count
        invariant Valid() && curLength == at + |rest| - |Rest()|
        invariant DecodeMany(f.item, i, rest, at) == Values(vs, Rest())
      {
        var v := DecodeValue(f.item);
        if v.None? {
          NoMore(f.item, i + 1, f.count, rest, at);
          return None;
        }
        vs := vs + [v.value];
      }
      r := Some(Many(vs));
    }

    /** A checksum message, whose arrays are as long as its head says. */
    method DecodeCounted(c: Counted) returns (r: Option<Value>)
      requires Valid()
      modifies this`curPos, this`curLength, buffer
      ensures Matches(Messages.DecodeCounted(c, old(Rest()), old(curLength)), r)
    {
      var head := DecodeValue(c.head);
      if head.None? {
        return None;
      }
      var count := c.Count(head.value);
      if count < 0 || count > ZFS_MAX_MD5_CHUNKS {
        return None;
      }
      var tail := DecodeValue(c.Tail(count));
      if tail.None? {
        return None;
      }
      r := Some(Pair(head.value, tail.value));
    }

    /** Read the length of the packet; decoding goes on when it is not more than a buffer. */
    method StartDecoding() returns (ok: bool)
      requires Placed()
      modifies this`curPos, this`curLength, this`maxLength
      ensures maxLength == FromLittleEndian(buffer[..4]) && curLength == 4
      ensures ok <==> maxLength <= ZFS_DC_SIZE
      ensures ok && maxLength >= 4 ==> Valid()
    {
      curPos, maxLength, curLength := base, 4, 0;
      assert Rest() == buffer[..4] && Rest()[0..4] == Rest();
      var _, length := DecodeNumber(W4);
      maxLength := length;
      ok := maxLength <= ZFS_DC_SIZE;
    }

    method FinishDecoding() returns (ok: bool)
      ensures ok <==> curLength == maxLength
    {
      ok := curLength == maxLength;
    }

    /** A whole packet.  One that says it is shorter than its own length field is not decoded:
        the cursor is behind its end from the start, and decoding only moves it on. */
    method DecodePacket(f: Format) returns (r: Option<Value>)
      requires Placed()
      modifies this`curPos, this`curLength, this`maxLength, buffer
      ensures r == Unpack(f, old(buffer[..]))
    {
      assert buffer[..][..4] == buffer[..4];
      var ok := StartDecoding();
      if !ok || curLength > maxLength {
        return None;
      }
      assert Rest() == buffer[..][4..maxLength];
      r := DecodeValue(f);
      if r.Some? {
        var finished := FinishDecoding();
        if !finished {
          r := None;
        }
      }
    }

    /** A call, or a successful reply.  Where the buffer starts with the packet of one, that one
        is found, and nothing is found that could not have been sent. */
    method DecodeMessage(p: Procedure, reply: bool) returns (r: Option<Value>)
      requires Placed()
      modifies this`curPos, this`curLength, this`maxLength, buffer
      ensures forall v :: Fits(Message(p, reply), v) && MessagePacket(p, reply, v) <= old(buffer[..]) ==> r == Some(v)
      ensures r.Some? ==> Fits(Message(p, reply), r.value)
    {
      ghost var bytes := buffer[..];
      r := DecodePacket(Message(p, reply));
      forall v | Fits(Message(p, reply), v) && MessagePacket(p, reply, v) <= bytes ensures r == Some(v) {
        MessageRoundTrip(p, reply, v, bytes);
      }
      if r.Some? {
        UnpackedFits(Message(p, reply), bytes);
      }
    }
  }

  /** What stands in [from, to) of a buffer, cut after `skip + n` bytes. */
  lemma {:induction false} Behind(all: seq<Byte>, from: nat, to: nat, skip: nat, n: nat)
    requires from + skip + n <= to <= |all|
    ensures all[from..to][skip..skip + n] == all[from + skip..from + skip + n]
    ensures all[from..to][skip + n..] == all[from + skip + n..to]
  {
    var rest := all[from..to];
    assert rest[skip..] == all[from + skip..to];
    assert rest[skip..][..n] == rest[skip..skip + n] && all[from + skip..to][..n] == all[from + skip..from + skip + n];
  }

  lemma {:induction false} NumberAt(all: seq<Byte>, at: nat, max: nat, w: Width)
    requires at <= max <= |all|
    ensures var start, end := Align(at, w), Align(at, w) + w.Bytes();
            Wire.DecodeNumber(all[at..max], w, at) ==
            if end > max then NoNumber else ANumber(FromLittleEndian(all[start..end]), all[end..max])
  {
    if Align(at, w) + w.Bytes() <= max {
      Behind(all, at, max, Pad(at, w), w.Bytes());
    }
  }

  lemma {:induction false} Appended(a: seq<Byte>, b: seq<Byte>, c: seq<Byte>, x: seq<Byte>, y: seq<Byte>)
    requires b == a + x && c == b + y
    ensures c == a + (x + y)
  {
  }
}
