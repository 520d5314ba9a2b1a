/** Where the bytes of a value stand on the wire, said without the encoder. */
module Layout {
  import opened Contents
  import opened Options
  import opened Wire
  import opened Messages

  /** Byte `k` of a number, the least significant being byte 0. */
  ghost function Digit(n: nat, k: nat): nat {
    n / Pow256(k) % 256
  }

  /** `pad` zeros up to a multiple of the width, then the bytes of the number. */
  ghost predicate NumberBehind(n: nat, w: Width, at: nat, pad: nat, bytes: seq<Byte>) {
    && pad < w.Bytes() && (at + pad) % w.Bytes() == 0 && |bytes| == pad + w.Bytes()
    && (forall i :: 0 <= i < pad ==> bytes[i] == 0)
    && (forall k :: 0 <= k < w.Bytes() ==> bytes[pad + k] as nat == Digit(n, k))
  }

  ghost predicate NumberLaid(n: nat, w: Width, at: nat, bytes: seq<Byte>) {
    exists pad: nat :: NumberBehind(n, w, at, pad, bytes)
  }

  /** A number, then `rest`. */
  ghost predicate PrefixLaid(n: nat, at: nat, rest: seq<Byte>, bytes: seq<Byte>) {
    |rest| <= |bytes| && NumberLaid(n, W4, at, bytes[..|bytes| - |rest|]) && bytes[|bytes| - |rest|..] == rest
  }

  /** The bytes are those of the value at offset `at`: every number at a multiple of its width,
      least significant byte first, behind zeros; a negative one in two's complement; data behind
      its length; a string behind its length and followed by a zero; everything in order. */
  ghost predicate Laid(f: Format, v: Value, at: nat, bytes: seq<Byte>)
    requires Fits(f, v)
    decreases f, 2
  {
    if f.Both? then exists cut: nat :: PairLaid(f, v, at, cut, bytes)
    else if f.Times? then ManyLaid(f.item, v.items, at, bytes)
    else FieldLaid(f, v, at, bytes)
  }

  ghost predicate FieldLaid(f: Format, v: Value, at: nat, bytes: seq<Byte>)
    requires Fits(f, v) && !f.Both? && !f.Times?
  {
    match f
    case Unsigned(w) => NumberLaid(v.n, w, at, bytes)
    case Signed(w) => NumberLaid(if v.n < 0 then v.n + Pow256(w.Bytes()) else v.n, w, at, bytes)
    case Choice(_) => NumberLaid(v.n, W1, at, bytes)
    case Data => PrefixLaid(|v.bytes|, at, v.bytes, bytes)
    case Fixed(_) => bytes == v.bytes
    case Text(_) => PrefixLaid(|v.bytes|, at, v.bytes + [0], bytes)
    case Nothing => bytes == []
  }

  /** The first value in `cut` bytes, the second behind it. */
  ghost predicate PairLaid(f: Format, v: Value, at: nat, cut: nat, bytes: seq<Byte>)
    requires Fits(f, v) && f.Both?
    decreases f, 1
  {
    cut <= |bytes| && Laid(f.first, v.first, at, bytes[..cut]) && Laid(f.second, v.second, at + cut, bytes[cut..])
  }

  ghost predicate ManyLaid(item: Format, vs: seq<Value>, at: nat, bytes: seq<Byte>)
    requires AllFit(item, vs)
    decreases item, 3, |vs|, 1
  {
    if vs == [] then bytes == [] else exists cut: nat :: LastLaid(item, vs, at, cut, bytes)
  }

  /** All but the last element in `cut` bytes, the last behind them. */
  ghost predicate LastLaid(item: Format, vs: seq<Value>, at: nat, cut: nat, bytes: seq<Byte>)
    requires AllFit(item, vs) && vs != []
    decreases item, 3, |vs|, 0
  {
    cut <= |bytes| && ManyLaid(item, vs[..|vs| - 1], at, bytes[..cut]) && Laid(item, vs[|vs| - 1], at + cut, bytes[cut..])
  }

  // ----- the encoder lays values out like that -----

  lemma DivTwice(n: nat, p: nat)
    requires p > 0
    ensures 256 * p > 0 && n / 256 / p == n / (256 * p)
  {
    var q, r := n / 256 / p, n / 256 % p;
    var s := n % 256;
    assert n == 256 * (p * q + r) + s;
    assert n == (256 * p) * q + (256 * r + s);
    assert 0 <= 256 * r + s < 256 * p;
    QuotientIs(n, 256 * p, q, 256 * r + s);
  }

  lemma QuotientIs(n: nat, d: nat, q: nat, r: nat)
    requires d > 0 && r < d && n == d * q + r
    ensures n / d == q
  {
    var k, s := n / d, n % d;
    assert d * k + s == d * q + r && 0 <= s < d;
    if k < q {
      Apart(d, k, q);
    } else if q < k {
      Apart(d, q, k);
    }
  }

  lemma Apart(d: nat, a: nat, b: nat)
    requires a < b
    ensures d * a + d <= d * b
  {
    assert d * b == d * a + d * (b - a);
    assert d * (b - a) == d + d * (b - a - 1);
  }

  lemma {:induction false} LittleEndianDigits(n: nat, size: nat, k: nat)
    requires k < size
    ensures LittleEndian(n, size)[k] as nat == Digit(n, k)
  {
    if k > 0 {
      LittleEndianDigits(n / 256, size - 1, k - 1);
      DivTwice(n, Pow256(k - 1));
    }
  }

  lemma {:induction false} ZerosAreZero(n: nat)
    ensures forall i :: 0 <= i < n ==> Zeros(n)[i] == 0
  {
    if n > 0 {
      ZerosAreZero(n - 1);
    }
  }

  lemma NumberIsLaid(n: nat, w: Width, at: nat)
    ensures NumberLaid(n, w, at, EncodeNumber(n, w, at))
  {
    var pad, bytes := Pad(at, w), EncodeNumber(n, w, at);
    AlignIsMultiple(at, w);
    ZerosAreZero(pad);
    forall k | 0 <= k < w.Bytes() ensures bytes[pad + k] as nat == Digit(n, k) {
      LittleEndianDigits(n, w.Bytes(), k);
    }
    assert NumberBehind(n, w, at, pad, bytes);
  }

  lemma PrefixIsLaid(n: nat, at: nat, rest: seq<Byte>)
    ensures PrefixLaid(n, at, rest, EncodeNumber(n, W4, at) + rest)
  {
    var number := EncodeNumber(n, W4, at);
    NumberIsLaid(n, W4, at);
    assert (number + rest)[..|number|] == number && (number + rest)[|number|..] == rest;
  }

  /** Every value at every offset. */
  lemma {:induction false} EncodeLaid(f: Format, v: Value, at: nat)
    requires Fits(f, v)
    ensures Laid(f, v, at, Encode(f, v, at))
    decreases f, 0
  {
    if f.Both? {
      var one := Encode(f.first, v.first, at);
      var two := Encode(f.second, v.second, at + |one|);
      EncodeLaid(f.first, v.first, at);
      EncodeLaid(f.second, v.second, at + |one|);
      BothAreLaid(f, v, at, one, two);
      EncodeTwoIs(f.first, f.second, v.first, v.second, at);
    } else if f.Times? {
      ManyAreLaid(f.item, v.items, at);
    } else {
      FieldIsLaid(f, v, at);
    }
  }

  lemma {:induction false} BothAreLaid(f: Format, v: Value, at: nat, one: seq<Byte>, two: seq<Byte>)
    requires f.Both? && Fits(f, v) && Laid(f.first, v.first, at, one) && Laid(f.second, v.second, at + |one|, two)
    ensures Laid(f, v, at, one + two)
  {
    Taken(one, two);
    assert PairLaid(f, v, at, |one|, one + two);
  }

  lemma {:induction false} FieldIsLaid(f: Format, v: Value, at: nat)
    requires Fits(f, v) && !f.Both? && !f.Times?
    ensures FieldLaid(f, v, at, EncodeField(f, v, at))
  {
    match f
    case Unsigned(w) => NumberIsLaid(v.n, w, at);
    case Signed(w) =>
      LimitIsPower(w);
      NumberIsLaid(ToUnsigned(v.n, w), w, at);
    case Choice(_) => NumberIsLaid(v.n, W1, at);
    case Data => PrefixIsLaid(|v.bytes|, at, v.bytes);
    case Text(_) => PrefixIsLaid(|v.bytes|, at, v.bytes + [0]);
    case Fixed(_) =>
    case Nothing =>
  }

  lemma {:induction false} ManyAreLaid(item: Format, vs: seq<Value>, at: nat)
    requires AllFit(item, vs)
    ensures ManyLaid(item, vs, at, EncodeMany(item, vs, at))
    decreases item, 1, |vs|
  {
    if vs != [] {
      var front, last := EncodeMany(item, vs[..|vs| - 1], at), EncodeLast(item, vs, at);
      ManyAreLaid(item, vs[..|vs| - 1], at);
      EncodeLaid(item, vs[|vs| - 1], at + |front|);
      MoreAreLaid(item, vs, at, front, last);
    }
  }

  lemma {:induction false} MoreAreLaid(item: Format, vs: seq<Value>, at: nat, front: seq<Byte>, last: seq<Byte>)
    requires AllFit(item, vs) && vs != []
    requires ManyLaid(item, vs[..|vs| - 1], at, front) && Laid(item, vs[|vs| - 1], at + |front|, last)
    ensures ManyLaid(item, vs, at, front + last)
  {
    Taken(front, last);
    assert LastLaid(item, vs, at, |front|, front + last);
  }

  // ----- and nobody can lay them out otherwise -----

  lemma NumberLaidOnce(n: nat, w: Width, at: nat, x: seq<Byte>, y: seq<Byte>)
    requires NumberLaid(n, w, at, x) && NumberLaid(n, w, at, y)
    ensures x == y
  {
    var a: nat :| NumberBehind(n, w, at, a, x);
    var b: nat :| NumberBehind(n, w, at, b, y);
    SamePad(at, w, a, b);
    forall i | 0 <= i < |x| ensures x[i] == y[i] {
      if i >= a {
        assert x[a + (i - a)] as nat == Digit(n, i - a) && y[a + (i - a)] as nat == Digit(n, i - a);
      }
    }
  }

  lemma SamePad(at: nat, w: Width, a: nat, b: nat)
    requires a < w.Bytes() && b < w.Bytes() && (at + a) % w.Bytes() == 0 == (at + b) % w.Bytes()
    ensures a == b
  {
    match w
    case W1 =>
    case W2 => SamePad2(at, a, b);
    case W4 => SamePad4(at, a, b);
    case W8 => SamePad8(at, a, b);
  }

  lemma SamePad2(at: nat, a: nat, b: nat)
    requires a < 2 && b < 2 && (at + a) % 2 == 0 == (at + b) % 2
    ensures a == b
  {
  }

  lemma SamePad4(at: nat, a: nat, b: nat)
    requires a < 4 && b < 4 && (at + a) % 4 == 0 == (at + b) % 4
    ensures a == b
  {
  }

  lemma SamePad8(at: nat, a: nat, b: nat)
    requires a < 8 && b < 8 && (at + a) % 8 == 0 == (at + b) % 8
    ensures a == b
  {
  }

  lemma PrefixLaidOnce(n: nat, at: nat, rest: seq<Byte>, x: seq<Byte>, y: seq<Byte>)
    requires PrefixLaid(n, at, rest, x) && PrefixLaid(n, at, rest, y)
    ensures x == y
  {
    NumberLaidOnce(n, W4, at, x[..|x| - |rest|], y[..|y| - |rest|]);
    assert x == x[..|x| - |rest|] + rest && y == y[..|y| - |rest|] + rest;
  }

  lemma {:induction false} FieldLaidOnce(f: Format, v: Value, at: nat, x: seq<Byte>, y: seq<Byte>)
    requires Fits(f, v) && !f.Both? && !f.Times? && FieldLaid(f, v, at, x) && FieldLaid(f, v, at, y)
    ensures x == y
  {
    match f
    case Unsigned(w) => NumberLaidOnce(v.n, w, at, x, y);
    case Signed(w) => NumberLaidOnce(if v.n < 0 then v.n + Pow256(w.Bytes()) else v.n, w, at, x, y);
    case Choice(_) => NumberLaidOnce(v.n, W1, at, x, y);
    case Data => PrefixLaidOnce(|v.bytes|, at, v.bytes, x, y);
    case Text(_) => PrefixLaidOnce(|v.bytes|, at, v.bytes + [0], x, y);
    case Fixed(_) =>
    case Nothing =>
  }

  /** So the encoding is the only one. */
  lemma {:induction false} LaidOnce(f: Format, v: Value, at: nat, x: seq<Byte>, y: seq<Byte>)
    requires Fits(f, v) && Laid(f, v, at, x) && Laid(f, v, at, y)
    ensures x == y
    decreases f, 0
  {
    if f.Both? {
      var c: nat :| PairLaid(f, v, at, c, x);
      var d: nat :| PairLaid(f, v, at, d, y);
      LaidOnce(f.first, v.first, at, x[..c], y[..d]);
      SameCut(x, c, y, d);
      LaidOnce(f.second, v.second, at + c, x[c..], y[d..]);
    } else if f.Times? {
      ManyLaidOnce(f.item, v.items, at, x, y);
    } else {
      FieldLaidOnce(f, v, at, x, y);
    }
  }

  lemma SameCut(x: seq<Byte>, c: nat, y: seq<Byte>, d: nat)
    requires c <= |x| && d <= |y| && x[..c] == y[..d]
    ensures c == d && (x[c..] == y[d..] ==> x == y)
  {
    assert |x[..c]| == c && |y[..d]| == d;
    assert x == x[..c] + x[c..] && y == y[..d] + y[d..];
  }

  lemma {:induction false} ManyLaidOnce(item: Format, vs: seq<Value>, at: nat, x: seq<Byte>, y: seq<Byte>)
    requires AllFit(item, vs) && ManyLaid(item, vs, at, x) && ManyLaid(item, vs, at, y)
    ensures x == y
    decreases item, 1, |vs|
  {
    if vs != [] {
      var c: nat :| LastLaid(item, vs, at, c, x);
      var d: nat :| LastLaid(item, vs, at, d, y);
      ManyLaidOnce(item, vs[..|vs| - 1], at, x[..c], y[..d]);
      SameCut(x, c, y, d);
      LaidOnce(item, vs[|vs| - 1], at + c, x[c..], y[d..]);
    }
  }

  // ----- packets -----

  /** The packet of a message: its length in four bytes, then the message at offset 4. */
  lemma MessageLaid(p: Procedure, reply: bool, v: Value)
    requires Fits(Message(p, reply), v)
    ensures var packet := MessagePacket(p, reply, v);
            && 4 <= |packet| <= ZFS_DC_SIZE
            && (forall k :: 0 <= k < 4 ==> packet[k] as nat == Digit(|packet|, k))
            && Laid(Message(p, reply), v, 4, packet[4..])
  {
    MessageFits(p, reply, v);
    PacketLaid(Message(p, reply), v);
  }

  lemma PacketLaid(f: Format, v: Value)
    requires Fits(f, v) && 4 + |Encode(f, v, 4)| <= ZFS_DC_SIZE
    ensures var packet := Packet(f, v);
            && |packet| == 4 + |Encode(f, v, 4)|
            && (forall k :: 0 <= k < 4 ==> packet[k] as nat == Digit(|packet|, k))
            && Laid(f, v, 4, packet[4..])
  {
    EncodeLaid(f, v, 4);
    LengthLaid(LittleEndian(4 + |Encode(f, v, 4)|, 4), Encode(f, v, 4));
  }

  lemma LengthLaid(length: seq<Byte>, body: seq<Byte>)
    requires |length| == 4 && length == LittleEndian(4 + |body|, 4)
    ensures (length + body)[4..] == body && forall k :: 0 <= k < 4 ==> (length + body)[k] as nat == Digit(4 + |body|, k)
  {
    forall k | 0 <= k < 4 ensures (length + body)[k] as nat == Digit(4 + |body|, k) {
      LittleEndianDigits(4 + |body|, 4, k);
    }
  }
}
