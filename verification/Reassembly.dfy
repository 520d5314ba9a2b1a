/** Putting packets together from whatever pieces a socket delivers.  The bytes of a packet
    longer than the buffer are dropped, except for its head. */
module Reassembly {
  import opened Contents
  import opened Wire

  const HEAD := 12

  /** The head of a packet ends with the request id: a length, a byte for the direction, and
      the id at the next multiple of four. */
  lemma HeadEndsWithId()
    ensures HEAD == Align(W4.Bytes() + W1.Bytes(), W4) + W4.Bytes()
  {
  }

  /** What is handed on: a packet, or the head of one that is too long. */
  datatype Packet = Whole(bytes: seq<Byte>) | TooLong(head: seq<Byte>, length: nat)

  function PacketOf(bytes: seq<Byte>): Packet {
    if |bytes| <= ZFS_DC_SIZE then Whole(bytes) else TooLong(bytes[..HEAD], |bytes|)
  }

  /** The length a packet says it has. */
  function LengthOf(s: seq<Byte>): nat
    requires |s| >= 4
  {
    FromLittleEndian(s[..4])
  }

  /** Lengths that can be read: a packet has something behind its length, and what remains
      of it can be counted by a signed number of 32 bits. */
  predicate Readable(length: nat) {
    5 <= length < 0x8000_0000
  }

  /** `s` ends before the packet it begins with. */
  predicate Unfinished(s: seq<Byte>) {
    |s| < 4 || |s| < LengthOf(s)
  }

  datatype Parsed = Parsed(packets: seq<Packet>, rest: seq<Byte>)

  /** The packets of an unsplit stream, and the unfinished one behind them. */
  function Parse(s: seq<Byte>): (r: Parsed)
    decreases |s|
  {
    if Unfinished(s) || LengthOf(s) == 0 then Parsed([], s)
    else
      var length := LengthOf(s);
      var later := Parse(s[length..]);
      Parsed([PacketOf(s[..length])] + later.packets, later.rest)
  }

  /** Parsing can be taken up where it stopped. */
  lemma {:induction false} ParseMore(s: seq<Byte>, more: seq<Byte>)
    ensures Parse(s + more).packets == Parse(s).packets + Parse(Parse(s).rest + more).packets
    ensures Parse(s + more).rest == Parse(Parse(s).rest + more).rest
    decreases |s|
  {
    if Unfinished(s) || LengthOf(s) == 0 {
    } else {
      var length := LengthOf(s);
      ParseMore(s[length..], more);
      assert (s + more)[..4] == s[..4];
      assert (s + more)[length..] == s[length..] + more;
      assert (s + more)[..length] == s[..length];
    }
  }

  /** Packets sent one after the other are what is parsed. */
  function Joined(packets: seq<seq<Byte>>): seq<Byte> {
    if packets == [] then [] else packets[0] + Joined(packets[1..])
  }

  ghost predicate Sized(packet: seq<Byte>) {
    |packet| >= 4 && LengthOf(packet) == |packet| && Readable(|packet|)
  }

  lemma {:induction false} ParseFirst(first: seq<Byte>, later: seq<Byte>)
    requires Sized(first)
    ensures Parse(first + later) == Parsed([PacketOf(first)] + Parse(later).packets, Parse(later).rest)
  {
    var s := first + later;
    assert s[..4] == first[..4];
    assert s[..|first|] == first && s[|first|..] == later;
  }

  lemma {:induction false} ParseJoined(packets: seq<seq<Byte>>)
    requires forall i :: 0 <= i < |packets| ==> Sized(packets[i])
    ensures Parse(Joined(packets)).rest == []
    ensures Parse(Joined(packets)).packets == seq(|packets|, i requires 0 <= i < |packets| => PacketOf(packets[i]))
  {
    if packets != [] {
      var first, later := packets[0], Joined(packets[1..]);
      ParseJoined(packets[1..]);
      ParseFirst(first, later);
    }
  }

  /** One connection being read. */
  class Reader {
    var read: nat
    /** The buffer of the packet being read, as far as it is kept. */
    var buffer: seq<Byte>
    var maxLength: nat
    var dispatched: seq<Packet>
    /** Everything received, and the unfinished packet at its end. */
    ghost var stream: seq<Byte>
    ghost var current: seq<Byte>

    ghost predicate Valid()
      reads this
    {
      && Parse(stream) == Parsed(dispatched, current) && Unfinished(current)
      && read == |current|
      && (read >= 4 ==> maxLength == LengthOf(current) && Readable(maxLength))
      && buffer == Kept(current, read >= 4 && maxLength > ZFS_DC_SIZE)
    }

    constructor ()
      ensures Valid() && stream == [] && dispatched == []
    {
      read, buffer, maxLength, dispatched := 0, [], 0, [];
      stream, current := [], [];
    }

    /** How many bytes are asked for. */
    function Wanted(): (n: nat)
      requires Valid()
      reads this
      ensures n > 0
    {
      if read < 4 then 4 - read
      else if maxLength <= ZFS_DC_SIZE then maxLength - read
      else if read < HEAD then HEAD - read
      else if maxLength - read > ZFS_MAXDATA then ZFS_MAXDATA
      else maxLength - read
    }

    /** The socket delivers some of the bytes asked for.  Whatever its pieces are, what has
        been dispatched are the packets of the unsplit stream.  It goes on exactly until a
        packet says it has a length that cannot be read, and up to there nothing is lost. */
    method Receive(chunk: seq<Byte>) returns (ok: bool)
      requires Valid() && 0 < |chunk| <= Wanted()
      modifies this
      ensures ok <==> (old(read) < 4 && old(read) + |chunk| == 4 ==> Readable(LengthOf(old(current) + chunk)))
      ensures stream == old(stream) + chunk && (ok ==> Valid() && dispatched == Parse(stream).packets)
      ensures !ok ==> dispatched == old(dispatched) && read == 4 && maxLength == LengthOf(old(current) + chunk)
    {
      ok := true;
      ParseMore(stream, chunk);
      stream, current := stream + chunk, current + chunk;
      if read < 4 {
        buffer := buffer + chunk;
        read := read + |chunk|;
        if read == 4 {
          assert current[..4] == buffer;
          maxLength := FromLittleEndian(buffer);
          ok := Readable(maxLength);
        }
      } else {
        assert current[..4] == old(current)[..4] && current[..read] == old(current);
        Continue(chunk);
      }
    }

    /** The rest of a packet whose length is known. */
    method Continue(chunk: seq<Byte>)
      requires 4 <= read && |current| == read + |chunk| <= maxLength && chunk == current[read..]
      requires Readable(maxLength) && maxLength == LengthOf(current)
      requires read < maxLength && 0 < |chunk|
      requires maxLength > ZFS_DC_SIZE && read < HEAD ==> |current| <= HEAD
      requires buffer == Kept(current[..read], maxLength > ZFS_DC_SIZE)
      requires Parse(stream).packets == dispatched + Parse(current).packets && Parse(stream).rest == Parse(current).rest
      modifies this
      ensures Valid() && stream == old(stream)
    {
      KeptMore(current, read, maxLength > ZFS_DC_SIZE);
      if maxLength <= ZFS_DC_SIZE || read < HEAD {
        buffer := buffer + chunk;
      }
      read := read + |chunk|;
      if maxLength != read {
        assert Parse(current) == Parsed([], current) && dispatched + [] == dispatched;
      } else {
        ParseOne(current);
        var packet := if maxLength <= ZFS_DC_SIZE then Whole(buffer) else TooLong(buffer, maxLength);
        assert packet == PacketOf(current);
        assert Parse(stream) == Parsed(dispatched + [packet], []);
        dispatched := dispatched + [packet];
        read, buffer := 0, [];
        current := [];
      }
    }
  }

  lemma {:induction false} ParseOne(s: seq<Byte>)
    requires |s| >= 4 && LengthOf(s) == |s|
    ensures Parse(s) == Parsed([PacketOf(s)], [])
  {
    assert s[..|s|] == s && s[|s|..] == [];
  }

  lemma {:induction false} KeptMore(s: seq<Byte>, read: nat, long: bool)
    requires read <= |s| && (long && read < HEAD ==> |s| <= HEAD)
    ensures Kept(s, long) == Kept(s[..read], long) + if long && read >= HEAD then [] else s[read..]
  {
    assert s == s[..read] + s[read..];
  }

  /** What the buffer holds of the packet being read. */
  ghost function Kept(s: seq<Byte>, long: bool): seq<Byte> {
    if long && |s| > HEAD then s[..HEAD] else s
  }

  /** Two ways of splitting the same stream dispatch the same packets. */
  lemma {:induction false} SplittingDoesNotMatter(a: Reader, b: Reader)
    requires a.Valid() && b.Valid() && a.stream == b.stream
    ensures a.dispatched == b.dispatched && a.read == b.read && a.buffer == b.buffer
  {
  }
}
