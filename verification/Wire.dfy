/** The wire format: values aligned to their size, in little-endian order, inside packets
    that start with their own length. */
module Wire {
  import opened Contents
  import opened Options

  const ZFS_DC_SIZE := 8888

  /** Sizes of numbers, in bytes. */
  datatype Width = W1 | W2 | W4 | W8 {
    function Bytes(): (n: nat)
      ensures 1 <= n <= 8
    {
      match this
      case W1 => 1
      case W2 => 2
      case W4 => 4
      case W8 => 8
    }
  }

  type ChoiceLimit = n: nat | 1 <= n <= 256 witness 1
  type TextLimit = n: nat | n < 0x1_0000_0000

  /** How a value is laid out. */
  datatype Format =
    | Unsigned(width: Width)
    | Signed(width: Width)
    | Choice(limit: ChoiceLimit)  // one byte below a limit
    | Data                        // at most ZFS_MAXDATA bytes after their number
    | Fixed(length: nat)          // so many bytes
    | Text(max: TextLimit)        // at most so many bytes after their number, then a zero
    | Nothing
    | Both(first: Format, second: Format)
    | Times(count: nat, item: Format)

  datatype Value = Num(n: int) | Raw(bytes: seq<Byte>) | Unit | Pair(first: Value, second: Value) | Many(items: seq<Value>)

  // ----- numbers -----

  /** The next multiple of the width. */
  function Align(n: nat, w: Width): (r: nat)
    ensures n <= r < n + w.Bytes()
  {
    match w
    case W1 => n
    case W2 => (n + 1) / 2 * 2
    case W4 => (n + 3) / 4 * 4
    case W8 => (n + 7) / 8 * 8
  }

  /** With the range above, it is the least multiple of the width that is not below `n`. */
  lemma AlignIsMultiple(n: nat, w: Width)
    ensures Align(n, w) % w.Bytes() == 0
  {
    match w
    case W1 =>
    case W2 => Multiple2((n + 1) / 2);
    case W4 => Multiple4((n + 3) / 4);
    case W8 => Multiple8((n + 7) / 8);
  }

  lemma Multiple2(k: nat)
    ensures (k * 2) % 2 == 0
  {
  }

  lemma Multiple4(k: nat)
    ensures (k * 4) % 4 == 0
  {
  }

  lemma Multiple8(k: nat)
    ensures (k * 8) % 8 == 0
  {
  }

  /** How many bytes it is from offset `n` to the next multiple of the width. */
  function Pad(n: nat, w: Width): (p: nat)
    ensures p < w.Bytes()
  {
    Align(n, w) - n
  }

  /** The numbers of this width are below this. */
  function Limit(w: Width): (r: nat)
    ensures r % 2 == 0
  {
    match w
    case W1 => 0x100
    case W2 => 0x1_0000
    case W4 => 0x1_0000_0000
    case W8 => 0x1_0000_0000_0000_0000
  }

  function LittleEndian(n: nat, size: nat): (r: seq<Byte>)
    ensures |r| == size
  {
    if size == 0 then [] else [(n % 256) as Byte] + LittleEndian(n / 256, size - 1)
  }

  function FromLittleEndian(bytes: seq<Byte>): (n: nat) {
    if bytes == [] then 0 else (bytes[0] as nat) + 256 * FromLittleEndian(bytes[1..])
  }

  ghost function Pow256(size: nat): (p: nat)
    ensures p > 0
  {
    if size == 0 then 1 else 256 * Pow256(size - 1)
  }

  lemma {:induction false} LimitIsPower(w: Width)
    ensures Limit(w) == Pow256(w.Bytes())
  {
    assert Pow256(2) == 0x1_0000;
    assert Pow256(4) == 0x1_0000 * Pow256(2);
    assert Pow256(6) == 0x1_0000 * Pow256(4);
    assert Pow256(8) == 0x1_0000 * Pow256(6);
  }

  lemma {:induction false} PowerRoundTrip(n: nat, size: nat)
    requires n < Pow256(size)
    ensures FromLittleEndian(LittleEndian(n, size)) == n
  {
    if size > 0 {
      PowerRoundTrip(n / 256, size - 1);
      assert LittleEndian(n, size)[1..] == LittleEndian(n / 256, size - 1);
    }
  }

  lemma {:induction false} BelowPower(bytes: seq<Byte>)
    ensures FromLittleEndian(bytes) < Pow256(|bytes|)
  {
    if bytes != [] {
      BelowPower(bytes[1..]);
    }
  }

  lemma {:induction false} LittleEndianRoundTrip(n: nat, w: Width)
    requires n < Limit(w)
    ensures FromLittleEndian(LittleEndian(n, w.Bytes())) == n
  {
    LimitIsPower(w);
    PowerRoundTrip(n, w.Bytes());
  }

  /** Two's complement. */
  function ToUnsigned(n: int, w: Width): (r: int) {
    if n < 0 then n + Limit(w) else n
  }

  function ToSigned(n: int, w: Width): (r: int) {
    if n >= Limit(w) / 2 then n - Limit(w) else n
  }

  // ----- formats -----

  /** The value has the format and is within its limits. */
  predicate Fits(f: Format, v: Value)
    decreases f, 0
  {
    match f
    case Unsigned(w) => v.Num? && 0 <= v.n < Limit(w)
    case Signed(w) => v.Num? && -(Limit(w) / 2) <= v.n < Limit(w) / 2
    case Choice(limit) => v.Num? && 0 <= v.n < limit
    case Data => v.Raw? && |v.bytes| <= ZFS_MAXDATA
    case Fixed(length) => v.Raw? && |v.bytes| == length
    case Text(max) => v.Raw? && |v.bytes| <= max
    case Nothing => v == Unit
    case Both(a, b) => v.Pair? && Fits(a, v.first) && Fits(b, v.second)
    case Times(count, item) => v.Many? && |v.items| == count && AllFit(item, v.items)
  }

  predicate AllFit(item: Format, vs: seq<Value>)
    decreases item, 1
  {
    forall i :: 0 <= i < |vs| ==> Fits(item, vs[i])
  }

  function Zeros(n: nat): (r: seq<Byte>)
    ensures |r| == n
  {
    if n == 0 then [] else [0] + Zeros(n - 1)
  }

  /** A number of the given width, after the zeros that align it. */
  function EncodeNumber(n: nat, w: Width, at: nat): (r: seq<Byte>)
    ensures |r| == Pad(at, w) + w.Bytes()
  {
    Zeros(Pad(at, w)) + LittleEndian(n, w.Bytes())
  }

  /** The bytes of a value encoded at offset `at`. */
  function Encode(f: Format, v: Value, at: nat): (r: seq<Byte>)
    requires Fits(f, v)
    decreases f, 2
  {
    match f
    case Both(a, b) =>
      var first := Encode(a, v.first, at);
      first + Encode(b, v.second, at + |first|)
    case _ => EncodeField(f, v, at)
  }

  function EncodeField(f: Format, v: Value, at: nat): (r: seq<Byte>)
    requires Fits(f, v) && !f.Both?
    decreases f, 1
  {
    match f
    case Unsigned(w) => EncodeNumber(v.n, w, at)
    case Signed(w) => EncodeNumber(ToUnsigned(v.n, w), w, at)
    case Choice(_) => EncodeNumber(v.n, W1, at)
    case Data => EncodeNumber(|v.bytes|, W4, at) + v.bytes
    case Fixed(_) => v.bytes
    case Text(_) => EncodeNumber(|v.bytes|, W4, at) + (v.bytes + [0])
    case Nothing => []
    case Times(_, item) => EncodeMany(item, v.items, at)
  }

  function EncodeMany(item: Format, vs: seq<Value>, at: nat): (r: seq<Byte>)
    requires AllFit(item, vs)
    decreases item, 3, |vs|, 1
  {
    if vs == [] then [] else EncodeMany(item, vs[..|vs| - 1], at) + EncodeLast(item, vs, at)
  }

  /** The last element of an array that stands at offset `at`. */
  function EncodeLast(item: Format, vs: seq<Value>, at: nat): (r: seq<Byte>)
    requires AllFit(item, vs) && vs != []
    decreases item, 3, |vs|, 0
  {
    Encode(item, vs[|vs| - 1], at + |EncodeMany(item, vs[..|vs| - 1], at)|)
  }

  // ----- decoding -----

  /** What decoding gives: nothing, or what was found and the data behind it. */
  datatype DecodedNumber = NoNumber | ANumber(n: nat, rest: seq<Byte>)
  datatype DecodedValue = NoValue | AValue(value: Value, rest: seq<Byte>)
  datatype DecodedValues = NoValues | Values(values: seq<Value>, rest: seq<Byte>)

  /** The number of the given width in the data `rest`, which stands at offset `at`. */
  function DecodeNumber(rest: seq<Byte>, w: Width, at: nat): (r: DecodedNumber)
    ensures r.ANumber? ==> |rest| == Pad(at, w) + w.Bytes() + |r.rest|
  {
    var skip := Pad(at, w);
    var end := skip + w.Bytes();
    if end > |rest| then NoNumber else ANumber(FromLittleEndian(rest[skip..end]), rest[end..])
  }

  /** The value in the data `rest`, which stands at offset `at`; nothing when the data ends
      too early or a limit is exceeded. */
  function Decode(f: Format, rest: seq<Byte>, at: nat): (r: DecodedValue)
    ensures r.AValue? ==> |r.rest| <= |rest|
    decreases f, 2
  {
    if f.Both? then DecodeBoth(f, rest, at) else DecodeField(f, rest, at)
  }

  function DecodeBoth(f: Format, rest: seq<Byte>, at: nat): (r: DecodedValue)
    requires f.Both?
    ensures r.AValue? ==> |r.rest| <= |rest|
    decreases f, 1
  {
    match Decode(f.first, rest, at)
    case NoValue => NoValue
    case AValue(x, more) =>
      match Decode(f.second, more, at + |rest| - |more|)
      case NoValue => NoValue
      case AValue(y, end) => AValue(Pair(x, y), end)
  }

  function DecodeField(f: Format, rest: seq<Byte>, at: nat): (r: DecodedValue)
    requires !f.Both?
    ensures r.AValue? ==> |r.rest| <= |rest|
    decreases f, 1
  {
    match f
    case Unsigned(w) =>
      (match DecodeNumber(rest, w, at)
       case NoNumber => NoValue
       case ANumber(n, more) => AValue(Num(n), more))
    case Signed(w) =>
      (match DecodeNumber(rest, w, at)
       case NoNumber => NoValue
       case ANumber(n, more) => AValue(Num(ToSigned(n, w)), more))
    case Choice(limit) =>
      (match DecodeNumber(rest, W1, at)
       case NoNumber => NoValue
       case ANumber(n, more) => if n < limit then AValue(Num(n), more) else NoValue)
    case Data =>
      (match DecodeNumber(rest, W4, at)
       case NoNumber => NoValue
       case ANumber(n, more) => if n <= ZFS_MAXDATA && n <= |more| then AValue(Raw(more[..n]), more[n..]) else NoValue)
    case Fixed(length) =>
      if length <= |rest| then AValue(Raw(rest[..length]), rest[length..]) else NoValue
    case Text(limit) =>
      (match DecodeNumber(rest, W4, at)
       case NoNumber => NoValue
       case ANumber(n, more) => if n <= limit && n + 1 <= |more| then AValue(Raw(more[..n]), more[n + 1..]) else NoValue)
    case Nothing => AValue(Unit, rest)
    case Times(count, item) =>
      (match DecodeMany(item, count, rest, at)
       case NoValues => NoValue
       case Values(vs, more) => AValue(Many(vs), more))
  }

  function DecodeMany(item: Format, count: nat, rest: seq<Byte>, at: nat): (r: DecodedValues)
    ensures r.Values? ==> |r.rest| <= |rest|
    decreases item, 3, count
  {
    if count == 0 then Values([], rest)
    else match DecodeMany(item, count - 1, rest, at)
      case NoValues => NoValues
      case Values(vs, more) => DecodeLast(item, vs, more, at + |rest| - |more|)
  }

  /** The element behind those decoded so far. */
  function DecodeLast(item: Format, vs: seq<Value>, more: seq<Byte>, at: nat): (r: DecodedValues)
    ensures r.Values? ==> |r.rest| <= |more|
    decreases item, 3, 0
  {
    match Decode(item, more, at)
    case NoValue => NoValues
    case AValue(v, end) => Values(vs + [v], end)
  }

  // ----- round trips -----

  lemma {:induction false} NumberRoundTrip(n: nat, w: Width, at: nat, tail: seq<Byte>)
    requires n < Limit(w)
    ensures DecodeNumber(EncodeNumber(n, w, at) + tail, w, at) == ANumber(n, tail)
  {
    var rest := EncodeNumber(n, w, at) + tail;
    var skip := Pad(at, w);
    var end := skip + w.Bytes();
    assert rest[skip..end] == LittleEndian(n, w.Bytes());
    assert rest[end..] == tail;
    LittleEndianRoundTrip(n, w);
  }

  lemma {:induction false} ScalarRoundTrip(f: Format, v: Value, at: nat, tail: seq<Byte>)
    requires (f.Unsigned? || f.Signed? || f.Choice?) && Fits(f, v)
    ensures DecodeField(f, EncodeField(f, v, at) + tail, at) == AValue(v, tail)
  {
    match f
    case Unsigned(w) => NumberRoundTrip(v.n, w, at, tail);
    case Signed(w) => NumberRoundTrip(ToUnsigned(v.n, w), w, at, tail);
    case Choice(_) => NumberRoundTrip(v.n, W1, at, tail);
  }

  /** A length followed by bytes. */
  lemma {:induction false} PrefixedRoundTrip(n: nat, bytes: seq<Byte>, at: nat, tail: seq<Byte>)
    requires n < Limit(W4)
    ensures DecodeNumber(EncodeNumber(n, W4, at) + bytes + tail, W4, at) == ANumber(n, bytes + tail)
  {
    assert EncodeNumber(n, W4, at) + bytes + tail == EncodeNumber(n, W4, at) + (bytes + tail);
    NumberRoundTrip(n, W4, at, bytes + tail);
  }

  lemma {:induction false} TextRoundTrip(limit: TextLimit, bytes: seq<Byte>, at: nat, tail: seq<Byte>)
    requires Fits(Text(limit), Raw(bytes))
    ensures DecodeField(Text(limit), EncodeField(Text(limit), Raw(bytes), at) + tail, at) == AValue(Raw(bytes), tail)
  {
    PrefixedRoundTrip(|bytes|, bytes + [0], at, tail);
    Taken(bytes, [0] + tail);
    Taken(bytes + [0], tail);
    assert bytes + [0] + tail == bytes + ([0] + tail);
  }

  lemma {:induction false} BytesRoundTrip(f: Format, v: Value, at: nat, tail: seq<Byte>)
    requires (f.Data? || f.Text? || f.Fixed? || f.Nothing?) && Fits(f, v)
    ensures DecodeField(f, EncodeField(f, v, at) + tail, at) == AValue(v, tail)
  {
    match f
    case Data =>
      PrefixedRoundTrip(|v.bytes|, v.bytes, at, tail);
      Taken(v.bytes, tail);
    case Text(limit) => TextRoundTrip(limit, v.bytes, at, tail);
    case Fixed(_) => Taken(v.bytes, tail);
    case Nothing => assert [] + tail == tail;
  }

  lemma {:induction false} Taken(bytes: seq<Byte>, tail: seq<Byte>)
    ensures (bytes + tail)[..|bytes|] == bytes && (bytes + tail)[|bytes|..] == tail
  {
  }

  /** What was encoded is decoded, and what follows it is left. */
  lemma {:induction false} RoundTrip(f: Format, v: Value, at: nat, tail: seq<Byte>)
    requires Fits(f, v)
    ensures Decode(f, Encode(f, v, at) + tail, at) == AValue(v, tail)
    decreases f, 2
  {
    if f.Both? {
      var first := Encode(f.first, v.first, at);
      var second := Encode(f.second, v.second, at + |first|);
      Regroup(first, second, tail);
      RoundTrip(f.first, v.first, at, second + tail);
      RoundTrip(f.second, v.second, at + |first|, tail);
    } else {
      FieldRoundTrip(f, v, at, tail);
    }
  }

  lemma {:induction false} FieldRoundTrip(f: Format, v: Value, at: nat, tail: seq<Byte>)
    requires Fits(f, v) && !f.Both?
    ensures DecodeField(f, EncodeField(f, v, at) + tail, at) == AValue(v, tail)
    decreases f, 1
  {
    if f.Times? {
      ManyRoundTrip(f.item, v.items, at, tail);
    } else if f.Unsigned? || f.Signed? || f.Choice? {
      ScalarRoundTrip(f, v, at, tail);
    } else {
      BytesRoundTrip(f, v, at, tail);
    }
  }

  lemma {:induction false} ManyRoundTrip(item: Format, vs: seq<Value>, at: nat, tail: seq<Byte>)
    requires AllFit(item, vs)
    ensures DecodeMany(item, |vs|, EncodeMany(item, vs, at) + tail, at) == Values(vs, tail)
    decreases item, 5, |vs|
  {
    if vs == [] {
      assert [] + tail == tail;
    } else {
      var all, more := EncodeMany(item, vs, at) + tail, EncodeLast(item, vs, at) + tail;
      ManyRoundTrip(item, vs[..|vs| - 1], at, more);
      ManyParts(item, vs, at, tail);
      var pos := at + |EncodeMany(item, vs[..|vs| - 1], at)|;
      LastRoundTrip(item, vs, at, tail, more, pos);
      DecodeOneMore(item, vs[..|vs| - 1], vs, all, more, tail, at, pos);
    }
  }

  lemma {:induction false} ManyParts(item: Format, vs: seq<Value>, at: nat, tail: seq<Byte>)
    requires AllFit(item, vs) && vs != []
    ensures var front, more := EncodeMany(item, vs[..|vs| - 1], at), EncodeLast(item, vs, at) + tail;
            && EncodeMany(item, vs, at) + tail == front + more
            && |EncodeMany(item, vs, at) + tail| - |more| == |front|
  {
    Regroup(EncodeMany(item, vs[..|vs| - 1], at), EncodeLast(item, vs, at), tail);
  }

  lemma {:induction false} LastRoundTrip(item: Format, vs: seq<Value>, at: nat, tail: seq<Byte>, more: seq<Byte>, pos: nat)
    requires AllFit(item, vs) && vs != [] && more == EncodeLast(item, vs, at) + tail
    requires pos == at + |EncodeMany(item, vs[..|vs| - 1], at)|
    ensures DecodeLast(item, vs[..|vs| - 1], more, pos) == Values(vs, tail)
    decreases item, 3
  {
    RoundTrip(item, vs[|vs| - 1], pos, tail);
    Snoc(vs);
    DecodeLastIs(item, vs[..|vs| - 1], vs[|vs| - 1], more, tail, pos);
  }

  lemma {:induction false} DecodeLastIs(item: Format, vs: seq<Value>, v: Value, more: seq<Byte>, end: seq<Byte>, at: nat)
    requires Decode(item, more, at) == AValue(v, end)
    ensures DecodeLast(item, vs, more, at) == Values(vs + [v], end)
  {
  }

  lemma {:induction false} Snoc<T>(s: seq<T>)
    requires s != []
    ensures s == s[..|s| - 1] + [s[|s| - 1]]
  {
  }

  lemma {:induction false} Regroup<T>(a: seq<T>, b: seq<T>, c: seq<T>)
    ensures a + b + c == a + (b + c) && |a + (b + c)| - |b + c| == |a|
  {
  }

  lemma {:induction false} DecodeOneMore(item: Format, vs: seq<Value>, all: seq<Value>,
                                         rest: seq<Byte>, more: seq<Byte>, end: seq<Byte>, at: nat, pos: nat)
    requires |more| <= |rest| && pos == at + |rest| - |more|
    requires DecodeMany(item, |vs|, rest, at) == Values(vs, more)
    requires DecodeLast(item, vs, more, pos) == Values(all, end)
    ensures DecodeMany(item, |vs| + 1, rest, at) == Values(all, end)
  {
  }

  // ----- limits -----

  lemma {:induction false} DecodedBelow(rest: seq<Byte>, w: Width, at: nat)
    ensures DecodeNumber(rest, w, at).ANumber? ==> DecodeNumber(rest, w, at).n < Limit(w)
  {
    LimitIsPower(w);
    if Pad(at, w) + w.Bytes() <= |rest| {
      BelowPower(rest[Pad(at, w)..Pad(at, w) + w.Bytes()]);
    }
  }

  /** Whatever is decoded is within the limits of its format. */
  lemma {:induction false} DecodedFits(f: Format, rest: seq<Byte>, at: nat)
    requires Decode(f, rest, at).AValue?
    ensures Fits(f, Decode(f, rest, at).value)
    decreases f, 2
  {
    if f.Both? {
      assert Decode(f, rest, at) == DecodeBoth(f, rest, at);
      var x, pos, y := BothDecoded(f, rest, at);
      DecodedFits(f.first, rest, at);
      DecodedFits(f.second, x.rest, pos);
      PairFits(f, x.value, y.value);
    } else {
      FieldDecodedFits(f, rest, at);
    }
  }

  lemma {:induction false} BothDecoded(f: Format, rest: seq<Byte>, at: nat)
    returns (x: DecodedValue, pos: nat, y: DecodedValue)
    requires f.Both? && DecodeBoth(f, rest, at).AValue?
    ensures x == Decode(f.first, rest, at) && x.AValue?
    ensures y == Decode(f.second, x.rest, pos) && y.AValue?
    ensures DecodeBoth(f, rest, at).value == Pair(x.value, y.value)
  {
    x := Decode(f.first, rest, at);
    pos := at + |rest| - |x.rest|;
    y := Decode(f.second, x.rest, pos);
  }

  lemma {:induction false} PairFits(f: Format, x: Value, y: Value)
    requires f.Both? && Fits(f.first, x) && Fits(f.second, y)
    ensures Fits(f, Pair(x, y))
  {
  }

  lemma {:induction false} FieldDecodedFits(f: Format, rest: seq<Byte>, at: nat)
    requires !f.Both? && DecodeField(f, rest, at).AValue?
    ensures Fits(f, DecodeField(f, rest, at).value)
    decreases f, 1
  {
    if f.Times? {
      ManyDecodedFit(f.item, f.count, rest, at);
    } else if f.Unsigned? || f.Signed? {
      DecodedBelow(rest, f.width, at);
    }
  }

  lemma {:induction false} ManyDecodedFit(item: Format, count: nat, rest: seq<Byte>, at: nat)
    requires DecodeMany(item, count, rest, at).Values?
    ensures |DecodeMany(item, count, rest, at).values| == count && AllFit(item, DecodeMany(item, count, rest, at).values)
    decreases item, 3, count
  {
    if count > 0 {
      var front, pos, last := LastDecoded(item, count, rest, at);
      ManyDecodedFit(item, count - 1, rest, at);
      DecodedFits(item, front.rest, pos);
      OneMoreFits(item, front.values, last.value);
    }
  }

  lemma {:induction false} LastDecoded(item: Format, count: nat, rest: seq<Byte>, at: nat)
    returns (front: DecodedValues, pos: nat, last: DecodedValue)
    requires count > 0 && DecodeMany(item, count, rest, at).Values?
    ensures front == DecodeMany(item, count - 1, rest, at) && front.Values?
    ensures last == Decode(item, front.rest, pos) && last.AValue?
    ensures DecodeMany(item, count, rest, at).values == front.values + [last.value]
  {
    front := DecodeMany(item, count - 1, rest, at);
    assert front.Values?;
    pos := at + |rest| - |front.rest|;
    assert DecodeMany(item, count, rest, at) == DecodeLast(item, front.values, front.rest, pos);
    last := Decode(item, front.rest, pos);
  }

  lemma {:induction false} OneMoreFits(item: Format, vs: seq<Value>, v: Value)
    requires AllFit(item, vs) && Fits(item, v)
    ensures AllFit(item, vs + [v])
  {
  }

  /** Where some elements cannot be decoded, more cannot either. */
  lemma {:induction false} NoMore(item: Format, count: nat, more: nat, rest: seq<Byte>, at: nat)
    requires count <= more && DecodeMany(item, count, rest, at).NoValues?
    ensures DecodeMany(item, more, rest, at).NoValues?
    decreases more
  {
    if count < more {
      NoMore(item, count, more - 1, rest, at);
    }
  }

  /** Fewer elements take no more bytes. */
  lemma {:induction false} FewerTakeLess(item: Format, vs: seq<Value>, n: nat, at: nat)
    requires n <= |vs| && AllFit(item, vs)
    ensures AllFit(item, vs[..n]) && |EncodeMany(item, vs[..n], at)| <= |EncodeMany(item, vs, at)|
    decreases |vs|
  {
    if n < |vs| {
      assert vs[..|vs| - 1][..n] == vs[..n];
      FewerTakeLess(item, vs[..|vs| - 1], n, at);
    } else {
      assert vs[..n] == vs;
    }
  }

  // ----- packets -----

  /** A packet: the length of the whole, then the value. */
  function Packet(f: Format, v: Value): (r: seq<Byte>)
    requires Fits(f, v) && 4 + |Encode(f, v, 4)| <= ZFS_DC_SIZE
  {
    LittleEndian(4 + |Encode(f, v, 4)|, 4) + Encode(f, v, 4)
  }

  /** Decoding of a packet succeeds when its length is at most ZFS_DC_SIZE, the value can be
      decoded, and it ends where the packet ends. */
  function Unpack(f: Format, buf: seq<Byte>): (r: Option<Value>)
    requires |buf| >= ZFS_DC_SIZE
  {
    var max := FromLittleEndian(buf[..4]);
    if max < 4 || max > ZFS_DC_SIZE then None
    else match Decode(f, buf[4..max], 4)
      case NoValue => None
      case AValue(v, rest) => if rest == [] then Some(v) else None
  }

  lemma {:induction false} UnpackedFits(f: Format, buf: seq<Byte>)
    requires |buf| >= ZFS_DC_SIZE && Unpack(f, buf).Some?
    ensures Fits(f, Unpack(f, buf).value)
  {
    DecodedFits(f, buf[4..FromLittleEndian(buf[..4])], 4);
  }

  /** A packet in a buffer, whatever follows it there, gives its value back. */
  lemma {:induction false} PacketRoundTrip(f: Format, v: Value, buf: seq<Byte>)
    requires Fits(f, v) && 4 + |Encode(f, v, 4)| <= ZFS_DC_SIZE <= |buf| && Packet(f, v) <= buf
    ensures Unpack(f, buf) == Some(v)
  {
    var body := Encode(f, v, 4);
    PacketParts(LittleEndian(4 + |body|, 4), body, buf);
    LittleEndianRoundTrip(4 + |body|, W4);
    RoundTrip(f, v, 4, []);
  }

  lemma {:induction false} PacketParts(head: seq<Byte>, body: seq<Byte>, buf: seq<Byte>)
    requires |head| == 4 && head + body <= buf
    ensures buf[..4] == head && buf[4..4 + |body|] == body + []
  {
    assert buf[..4] == (head + body)[..4];
    assert buf[4..4 + |body|] == (head + body)[4..];
  }
}
