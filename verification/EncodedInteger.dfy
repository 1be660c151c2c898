/** The self-describing integer code shared by EncodedUnsigned and EncodedSigned.
    The first byte carries the byte order of the writer (bit 7), the sign (bit 6,
    signed code only) and the number of value bytes less one (the low bits). */
module EncodedInteger {
  import opened Bytes
  import opened Streams

  /** The widths of the endian-sensitive integers: 2, 4 and 8 bytes. */
  predicate IsWidth(width: nat) {
    2 <= width <= 8 && 8 % width == 0
  }

  lemma WidthsAre248(width: nat)
    ensures IsWidth(width) <==> width == 2 || width == 4 || width == 8
  {
  }

  /** The fewest bytes that can hold `v`; zero still takes one. */
  function ByteLength(v: nat): (n: nat)
    ensures n >= 1 && v < Pow256(n)
    ensures n > 1 ==> v >= Pow256(n - 1)
  {
    if v < 256 then 1 else 1 + ByteLength(v / 256)
  }

  /** ByteLength is least: no shorter size holds the value. */
  lemma ByteLengthIsLeast(v: nat, n: nat)
    ensures v < Pow256(n) && n >= 1 ==> ByteLength(v) <= n
  {
    if 1 <= n < ByteLength(v) {
      Pow256Monotone(n, ByteLength(v) - 1);
    }
  }

  /** Largest value for each size, with that size, as tabulated in SizeFromValue. */
  const SIZE_THRESHOLDS: seq<(nat, nat)> := [
    (0xFF, 1), (0xFFFF, 2), (0xFFFFFF, 3), (0xFFFFFFFF, 4),
    (0xFFFFFFFFFF, 5), (0xFFFFFFFFFFFF, 6), (0xFFFFFFFFFFFFFF, 7)]

  lemma ThresholdsArePowers()
    ensures forall k :: 0 <= k < |SIZE_THRESHOLDS| ==>
              SIZE_THRESHOLDS[k].1 == k + 1 && SIZE_THRESHOLDS[k].0 + 1 == Pow256(k + 1)
  {
    assert Pow256(1) == 0x100;
    assert Pow256(2) == 0x1_0000;
    assert Pow256(3) == 0x100_0000;
    assert Pow256(4) == 0x1_0000_0000;
    assert Pow256(5) == 0x100_0000_0000;
    assert Pow256(6) == 0x1_0000_0000_0000;
    assert Pow256(7) == 0x100_0000_0000_0000;
  }

  /** The search of the table finds the least sufficient size. */
  method SizeFromValue(v: nat, width: nat) returns (rc: nat)
    requires IsWidth(width) && v < Pow256(width)
    ensures rc == ByteLength(v)
    ensures 1 <= rc <= width
  {
    hide ByteLength, Pow256;
    ThresholdsArePowers();
    ByteLengthIsLeast(v, width);
    rc := width;
    var i := 0;
    while i < |SIZE_THRESHOLDS| && v > SIZE_THRESHOLDS[i].0
      invariant 0 <= i <= |SIZE_THRESHOLDS|
      invariant i > 0 ==> v >= Pow256(i)
    {
      i := i + 1;
    }
    if i < |SIZE_THRESHOLDS| {
      ByteLengthIsLeast(v, i + 1);
      if width >= SIZE_THRESHOLDS[i].1 {
        rc := SIZE_THRESHOLDS[i].1;
      }
    }
    if i > 0 && ByteLength(v) <= i {
      Pow256Monotone(ByteLength(v), i);
    }
  }

  /** What the first byte says: byte order, bit 6, number of value bytes. */
  datatype Header = Header(order: Endian, flag: bool, size: nat)

  function SizeToWire(sz: nat, width: nat): nat
    requires IsWidth(width)
  {
    if 0 < sz <= width then (sz - 1) % width else 0
  }

  function StartByte(native: Endian, negative: bool, sz: nat, width: nat): Byte
    requires IsWidth(width)
  {
    WidthsAre248(width);
    SizeToWire(sz, width) + (if native.Big? then 0x80 else 0) + (if negative then 0x40 else 0)
  }

  /** `width` is a power of two, so its mask keeps the remainder. */
  function ParseStart(b: Byte, width: nat): (h: Header)
    requires IsWidth(width)
    ensures 1 <= h.size <= width
  {
    Header(if b / 0x80 == 1 then Big else Little, b / 0x40 % 2 == 1, b % width + 1)
  }

  lemma ParseOfStart(native: Endian, negative: bool, sz: nat, width: nat)
    requires IsWidth(width) && 1 <= sz <= width
    ensures ParseStart(StartByte(native, negative, sz, width), width) == Header(native, negative, sz)
  {
    WidthsAre248(width);
    assert SizeToWire(sz, width) == sz - 1;
  }

  /** The bytes a machine of order `native` emits for magnitude `v`. */
  function Wire(native: Endian, negative: bool, v: nat, width: nat): (s: seq<Byte>)
    requires IsWidth(width) && v < Pow256(width)
    ensures |s| == 1 + ByteLength(v)
  {
    var sz := ByteLength(v);
    [StartByte(native, negative, sz, width)] + ToBytes(native, v, sz)
  }

  datatype Unwired = Unwired(flag: bool, magnitude: nat, used: nat)

  /** What any reader makes of `input`, in terms of positions alone: None when it runs dry. */
  function Unwire(input: seq<Byte>, width: nat): (r: Option<Unwired>)
    requires IsWidth(width)
    ensures r.Some? ==> 2 <= r.value.used <= |input| && r.value.used <= 1 + width
    ensures r.Some? ==> r.value.magnitude < Pow256(width)
  {
    if |input| < 2 || |input| < 1 + ParseStart(input[0], width).size then
      None
    else
      var h := ParseStart(input[0], width);
      var payload := input[1..1 + h.size];
      FromBytesBound(h.order, payload);
      Pow256Monotone(h.size, width);
      Some(Unwired(h.flag, FromBytes(h.order, payload), 1 + h.size))
  }

  /** A read of `input` that returns `rc`, bit 6 and a value and leaves `rest` to be read
      does what Unwire says; failure leaves nothing. */
  ghost predicate ReadAs(input: seq<Byte>, width: nat, rc: int, flag: bool, value: nat, rest: seq<Byte>)
    requires IsWidth(width)
  {
    match Unwire(input, width)
    case Some(u) => rc == u.used && flag == u.flag && value == u.magnitude && rest == input[u.used..]
    case None => rc == -1 && rest == []
  }

  /** The same, for the part of a read that follows the first two bytes. */
  ghost predicate RemainderReadAs(h: Header, first: Byte, input: seq<Byte>, rc: int, value: nat, rest: seq<Byte>)
    requires h.size >= 1
  {
    if |input| < h.size - 1 then
      rc == -1 && rest == []
    else
      && rc == 1 + h.size
      && value == FromBytes(h.order, [first] + input[..h.size - 1])
      && rest == input[h.size - 1..]
  }

  lemma ReadInTwoParts(input: seq<Byte>, width: nat, rc: int, value: nat, rest: seq<Byte>)
    requires IsWidth(width) && |input| >= 2
    requires RemainderReadAs(ParseStart(input[0], width), input[1], input[2..], rc, value, rest)
    ensures ReadAs(input, width, rc, ParseStart(input[0], width).flag, value, rest)
  {
    var h := ParseStart(input[0], width);
    if |input| >= h.size + 1 {
      assert input[1..1 + h.size] == [input[1]] + input[2..][..h.size - 1];
    }
  }

  /** Every machine decodes what every machine encodes, and consumes exactly that. */
  lemma UnwireOfWire(native: Endian, negative: bool, v: nat, width: nat, more: seq<Byte>)
    requires IsWidth(width) && v < Pow256(width)
    ensures Unwire(Wire(native, negative, v, width) + more, width)
         == Some(Unwired(negative, v, |Wire(native, negative, v, width)|))
  {
    var sz := ByteLength(v);
    ByteLengthIsLeast(v, width);
    var wire := Wire(native, negative, v, width);
    var input := wire + more;
    assert input[0] == StartByte(native, negative, sz, width);
    ParseOfStart(native, negative, sz, width);
    assert input[1..1 + sz] == ToBytes(native, v, sz);
    BytesRoundTrip(native, v, sz);
  }

  /** No proper prefix of an encoding is accepted. */
  lemma UnwireOfTruncated(native: Endian, negative: bool, v: nat, width: nat, k: nat)
    requires IsWidth(width) && v < Pow256(width)
    requires k < |Wire(native, negative, v, width)|
    ensures Unwire(Wire(native, negative, v, width)[..k], width) == None
  {
    var sz := ByteLength(v);
    ByteLengthIsLeast(v, width);
    ParseOfStart(native, negative, sz, width);
  }

  /** The tail of the input beyond what was used does not matter. */
  lemma UnwireIgnoresRest(input: seq<Byte>, more: seq<Byte>, width: nat)
    requires IsWidth(width) && Unwire(input, width).Some?
    ensures Unwire(input + more, width) == Unwire(input, width)
  {
    var sz := ParseStart(input[0], width).size;
    assert (input + more)[1..1 + sz] == input[1..1 + sz];
  }

  /** The bits of the first byte: the byte order in bit 7, the sign in bit 6, and the number
      of value bytes less one below. */
  lemma StartBits(native: Endian, negative: bool, sz: nat, width: nat)
    requires IsWidth(width) && 1 <= sz <= width
    ensures var b := StartByte(native, negative, sz, width);
            && (b / 128 == 1 <==> native.Big?) && (b / 64 % 2 == 1 <==> negative) && b % 64 == sz - 1
  {
    WidthsAre248(width);
    assert SizeToWire(sz, width) == sz - 1;
  }

  /** An encoding byte by byte, by place value: after the first byte come as few bytes as hold
      the value, in the order of the machine that writes. */
  lemma WireDigits(native: Endian, negative: bool, v: nat, width: nat)
    requires IsWidth(width) && v < Pow256(width)
    ensures var s := Wire(native, negative, v, width);
            var sz := |s| - 1;
            && sz >= 1 && (sz > 1 ==> v >= Pow256(sz - 1)) && Spells(native, s[1..], v)
            && (s[0] / 128 == 1 <==> native.Big?) && (s[0] / 64 % 2 == 1 <==> negative) && s[0] % 64 == sz - 1
  {
    hide StartByte, ByteLength, ToBytes, Spells;
    var sz := ByteLength(v);
    ByteLengthIsLeast(v, width);
    StartBits(native, negative, sz, width);
    WordSpells(native, v, sz);
    assert Wire(native, negative, v, width)[1..] == ToBytes(native, v, sz);
  }

  /** What any input decodes to, whoever wrote it, minimal or not: the size and the byte order
      are in the first byte, and the bytes that follow spell the value. */
  lemma UnwireDigits(input: seq<Byte>, width: nat)
    requires IsWidth(width)
    ensures Unwire(input, width).None? <==> |input| < 2 || |input| < 2 + input[0] % width
    ensures Unwire(input, width).Some? ==>
              var u, sz := Unwire(input, width).value, 1 + input[0] % width;
              && u.used == 1 + sz && (u.flag <==> input[0] / 64 % 2 == 1)
              && Spells(if input[0] >= 128 then Big else Little, input[1..1 + sz], u.magnitude)
  {
    hide FromBytes, Spells;
    if Unwire(input, width).Some? {
      var h := ParseStart(input[0], width);
      SpellsExactly(h.order, input[1..1 + h.size], Unwire(input, width).value.magnitude);
    }
  }

  predicate InSignedRange(v: int, width: nat) {
    var m: int := Pow256(width);
    -m <= 2 * v < m
  }

  lemma PowerIsEven(width: nat)
    requires width > 0
    ensures Pow256(width) % 2 == 0
  {
  }

  /** The signed reading of a `width`-byte word. One turn of the wheel brings every
      unsigned word, and every negated signed value, into range. */
  function ToSigned(x: int, width: nat): (r: int)
    requires -(Pow256(width) as int) <= x < Pow256(width)
    requires width > 0
    ensures InSignedRange(r, width)
    ensures r == x || r == x + Pow256(width) || r == x - Pow256(width)
  {
    var m: int := Pow256(width);
    PowerIsEven(width);
    if 2 * x >= m then x - m else if 2 * x < -m then x + m else x
  }

  function Magnitude(v: int): nat {
    if v < 0 then -v else v
  }

  /** The unsigned word with the same bits as the signed value `v`. */
  function ToUnsigned(v: int, width: nat): (u: nat)
    requires width > 0 && InSignedRange(v, width)
    ensures u < Pow256(width)
    ensures ToSigned(u, width) == v
  {
    if v < 0 then v + Pow256(width) else v
  }

  /** Complement and increment, with wrap-around: the bits become the magnitude, also for
      the most negative value, whose magnitude has no signed representation. */
  function Negated(u: nat, width: nat): (r: nat)
    requires width > 0 && u < Pow256(width)
    ensures r < Pow256(width)
    ensures ToSigned(u, width) < 0 ==> r == Magnitude(ToSigned(u, width))
  {
    var complement := Pow256(width) - 1 - u;
    if complement + 1 == Pow256(width) then 0 else complement + 1
  }

  /** The value a signed reader leaves: sign applied with wrap-around. */
  function SignedValue(u: Unwired, width: nat): (v: int)
    requires width > 0 && u.magnitude < Pow256(width)
    ensures InSignedRange(v, width)
  {
    var x := ToSigned(u.magnitude, width);
    if u.flag then ToSigned(-x, width) else x
  }

  /** Sign and magnitude lose nothing, the most negative value included. */
  lemma SignedValueOfMagnitude(v: int, width: nat, used: nat)
    requires width > 0 && InSignedRange(v, width)
    ensures Magnitude(v) < Pow256(width)
    ensures SignedValue(Unwired(v < 0, Magnitude(v), used), width) == v
  {
    PowerIsEven(width);
  }

  /** Where the `sz` significant bytes of a `width`-byte word sit in memory. */
  function SignificantAt(e: Endian, sz: nat, width: nat): (at: nat)
    requires sz <= width
    ensures at + sz <= width
  {
    if e.Big? then width - sz else 0
  }

  lemma WireFromMemory(native: Endian, negative: bool, v: nat, width: nat)
    requires IsWidth(width) && v < Pow256(width)
    ensures ByteLength(v) <= width
    ensures var sz := ByteLength(v);
            var at := SignificantAt(native, sz, width);
            Wire(native, negative, v, width)
              == [StartByte(native, negative, sz, width)] + ToBytes(native, v, width)[at..at + sz]
  {
    ByteLengthIsLeast(v, width);
    var sz := ByteLength(v);
    SignificantBytes(native, v, width, sz);
    var at := SignificantAt(native, sz, width);
    assert native.Little? ==> ToBytes(native, v, width)[at..at + sz] == ToBytes(native, v, width)[..sz];
    assert native.Big? ==> ToBytes(native, v, width)[at..at + sz] == ToBytes(native, v, width)[width - sz..];
  }

  /** Overwrites the bytes of `m` from `at` on. */
  function Stored(m: seq<Byte>, at: nat, bytes: seq<Byte>): (r: seq<Byte>)
    requires at + |bytes| <= |m|
    ensures |r| == |m|
  {
    m[..at] + bytes + m[at + |bytes|..]
  }

  lemma StoredTwice(order: Endian, first: Byte, more: seq<Byte>, width: nat)
    requires 1 + |more| <= width
    ensures var at := SignificantAt(order, 1 + |more|, width);
            Stored(Stored(Zeros(width), at, [first]), at + 1, more) == Placed(order, [first] + more, width)
  {
  }

  /** An object of EncodedUnsigned<T>: the bytes of `_value` on a machine of order `native`. */
  class EncodedUnsigned {
    const width: nat
    const native: Endian
    const memory: array<Byte>

    ghost predicate Valid()
      reads this
    {
      IsWidth(width) && memory.Length == width
    }

    function Value(): (v: nat)
      requires Valid()
      reads this, memory
      ensures v < Pow256(width)
    {
      FromBytesBound(native, memory[..]);
      FromBytes(native, memory[..])
    }

    constructor (width: nat, native: Endian, value: nat)
      requires IsWidth(width) && value < Pow256(width)
      ensures Valid() && fresh(memory) && this.width == width && this.native == native
      ensures Value() == value
    {
      this.width, this.native := width, native;
      memory := new Byte[width](i requires 0 <= i < width => ToBytes(native, value, width)[i]);
      new;
      assert memory[..] == ToBytes(native, value, width);
      BytesRoundTrip(native, value, width);
    }

    method StreamedLength() returns (n: nat)
      requires Valid()
      ensures n == |Wire(native, false, Value(), width)|
    {
      var sz := SizeFromValue(Value(), width);
      n := 1 + sz;
    }

    /** The bytes of memory from `base` to `limit`, pushed one by one after `start`. */
    method PushBytes(start: Byte, base: nat, limit: nat) returns (vec: seq<Byte>)
      requires Valid() && base <= limit <= width
      ensures vec == [start] + memory[..][base..limit]
    {
      vec := [start];
      var p := base;
      while p < limit
        invariant base <= p <= limit
        invariant vec == [start] + memory[..][base..p]
      {
        vec := vec + [memory[p]];
        p := p + 1;
      }
    }

    /** The write vector: the start byte, with the sign bit where the signed class wants it,
        then the significant bytes of the value taken straight out of memory. */
    method MakeSignedWriteVector(negative: bool) returns (vec: seq<Byte>)
      requires Valid()
      ensures vec == Wire(native, negative, Value(), width)
    {
      MemoryHoldsValue();
      WireFromMemory(native, negative, Value(), width);
      var sz := SizeFromValue(Value(), width);
      var base := SignificantAt(native, sz, width);
      vec := PushBytes(StartByte(native, negative, sz, width), base, base + sz);
    }

    method MakeNativeEndianWriteVector() returns (vec: seq<Byte>)
      requires Valid()
      ensures vec == Wire(native, false, Value(), width)
    {
      vec := MakeSignedWriteVector(false);
    }

    lemma MemoryHoldsValue()
      requires Valid()
      ensures memory[..] == ToBytes(native, Value(), width)
    {
      LittleRoundTripBytes(if native.Little? then memory[..] else Reverse(memory[..]));
      ReverseTwice(memory[..]);
    }

    /** Write to a descriptor: the whole vector or failure. */
    method Write(sink: Sink) returns (rc: int)
      requires Valid()
      modifies sink
      ensures var wire := Wire(native, false, Value(), width);
              && sink.data == old(sink.data) + wire[..Min(|wire|, old(sink.room))]
              && sink.room == old(sink.room) - Min(|wire|, old(sink.room))
              && rc == if |wire| <= old(sink.room) then |wire| else -1
    {
      rc := -1;
      var buf := MakeNativeEndianWriteVector();
      var n := sink.Write(buf);
      if n == |buf| {
        rc := |buf|;
      }
    }

    /** Stores `bytes` in memory from `at` on. */
    method Store(at: nat, bytes: seq<Byte>)
      requires Valid() && at + |bytes| <= width
      modifies memory
      ensures memory[..] == Stored(old(memory[..]), at, bytes)
    {
      forall i | 0 <= i < |bytes| {
        memory[at + i] := bytes[i];
      }
    }

    /** Reverses the bytes of the value. */
    method Bswap()
      requires Valid()
      modifies memory
      ensures memory[..] == Reverse(old(memory[..]))
    {
      var swapped := Reverse(memory[..]);
      Store(0, swapped);
    }

    /** The first two bytes of an encoding, processed: the value byte goes straight into
        zeroed memory, where the writer's byte order wants the first of them. */
    method ProcessTwoBytes(buf: seq<Byte>) returns (h: Header, sp: nat)
      requires Valid() && |buf| == 2 && memory[..] == Zeros(width)
      modifies memory
      ensures h == ParseStart(buf[0], width)
      ensures sp == SignificantAt(h.order, h.size, width) + 1
      ensures memory[..] == Stored(Zeros(width), sp - 1, [buf[1]])
    {
      h := ParseStart(buf[0], width);
      sp := SignificantAt(h.order, h.size, width);
      Store(sp, [buf[1]]);
      sp := sp + 1;
    }

    /** Completes memory with `more` at `sp` and gives it the reader's byte order. */
    method SwapIfForeign(order: Endian, sp: nat, more: seq<Byte>)
      requires Valid() && sp + |more| <= width
      modifies memory
      ensures Value() == FromBytes(order, Stored(old(memory[..]), sp, more))
    {
      Store(sp, more);
      if native != order {
        SwappedValue(native, order, memory[..]);
        Bswap();
      }
    }

    /** The remaining value bytes go into memory from `sp` on; then the bytes are swapped
        if the writer's byte order is not the reader's. */
    method ReadRemaining(src: Source, h: Header, sp: nat, ghost first: Byte) returns (rc: int)
      requires Valid() && src.Valid() && 1 <= h.size <= width
      requires sp == SignificantAt(h.order, h.size, width) + 1
      requires memory[..] == Stored(Zeros(width), sp - 1, [first])
      modifies memory, src
      ensures src.Valid()
      ensures RemainderReadAs(h, first, old(src.Rest()), rc, Value(), src.Rest())
    {
      hide FromBytes, FromLittle, Stored, Reverse, Zeros, Pow256;
      var more := [];
      if 1 < h.size {
        more := src.Read(h.size - 1);
      }
      if |more| == h.size - 1 {
        rc := 1 + h.size;
        StoredTwice(h.order, first, more, width);
        PlacedValue(h.order, [first] + more, width);
        SwapIfForeign(h.order, sp, more);
      } else {
        rc := -1;
        Store(sp, more);
      }
    }

    /** Read from a descriptor: two bytes, then the rest. */
    method ReadFlagged(src: Source) returns (rc: int, flag: bool)
      requires Valid() && src.Valid()
      modifies memory, src
      ensures src.Valid()
      ensures ReadAs(old(src.Rest()), width, rc, flag, Value(), src.Rest())
    {
      ghost var input := src.Rest();
      rc, flag := -1, false;
      Store(0, Zeros(width));
      var buf := src.Read(2);
      if |buf| == 2 {
        assert memory[..] == Zeros(width);
        var h, sp := ProcessTwoBytes(buf);
        flag := h.flag;
        rc := ReadRemaining(src, h, sp, buf[1]);
        ReadInTwoParts(input, width, rc, Value(), src.Rest());
      }
    }

    method Read(src: Source) returns (rc: int)
      requires Valid() && src.Valid()
      modifies memory, src
      ensures src.Valid()
      ensures match Unwire(old(src.Rest()), width)
              case Some(u) =>
                && rc == u.used
                && Value() == u.magnitude
                && src.Rest() == old(src.Rest())[u.used..]
              case None => rc == -1 && src.Rest() == []
    {
      var flag;
      rc, flag := ReadFlagged(src);
    }
  }

  /** The bytes a machine of order `native` emits for a signed value. */
  function WireSigned(native: Endian, v: int, width: nat): (s: seq<Byte>)
    requires IsWidth(width) && InSignedRange(v, width)
    ensures |s| == 1 + ByteLength(Magnitude(v))
  {
    SignedValueOfMagnitude(v, width, 0);
    Wire(native, v < 0, Magnitude(v), width)
  }

  datatype SignedReading = SignedReading(value: int, used: nat)

  function UnwireSigned(input: seq<Byte>, width: nat): (r: Option<SignedReading>)
    requires IsWidth(width)
    ensures r.Some? ==> InSignedRange(r.value.value, width)
  {
    match Unwire(input, width)
    case None => None
    case Some(u) => Some(SignedReading(SignedValue(u, width), u.used))
  }

  /** A signed encoding is that of its magnitude with the sign in the first byte. */
  lemma WireSignedDigits(native: Endian, v: int, width: nat)
    requires IsWidth(width) && InSignedRange(v, width)
    ensures var s := WireSigned(native, v, width);
            var sz := |s| - 1;
            && sz >= 1 && Spells(native, s[1..], Magnitude(v))
            && (s[0] / 128 == 1 <==> native.Big?) && (s[0] / 64 % 2 == 1 <==> v < 0) && s[0] % 64 == sz - 1
  {
    SignedValueOfMagnitude(v, width, 0);
    WireDigits(native, v < 0, Magnitude(v), width);
  }

  /** What any input decodes to: the signed value that is the magnitude, or its negative,
      up to one turn of the word. */
  lemma UnwireSignedValue(input: seq<Byte>, width: nat)
    requires IsWidth(width)
    ensures UnwireSigned(input, width).None? <==> Unwire(input, width).None?
    ensures UnwireSigned(input, width).Some? ==>
              var r, u := UnwireSigned(input, width).value, Unwire(input, width).value;
              var x: int := if u.flag then -(u.magnitude as int) else u.magnitude;
              && r.used == u.used && InSignedRange(r.value, width)
              && (r.value == x || r.value == x - Pow256(width) || r.value == x + Pow256(width))
  {
    hide Unwire, Pow256;
  }

  /** Every signed value, the most negative included, survives any pair of machines. */
  lemma UnwireOfWireSigned(native: Endian, v: int, width: nat, more: seq<Byte>)
    requires IsWidth(width) && InSignedRange(v, width)
    ensures UnwireSigned(WireSigned(native, v, width) + more, width)
         == Some(SignedReading(v, |WireSigned(native, v, width)|))
  {
    SignedValueOfMagnitude(v, width, |WireSigned(native, v, width)|);
    UnwireOfWire(native, v < 0, Magnitude(v), width, more);
  }

  /** An object of EncodedSigned<T> on a machine of order `native`. */
  class EncodedSigned {
    const width: nat
    const native: Endian
    var value: int

    ghost predicate Valid()
      reads this
    {
      IsWidth(width) && InSignedRange(value, width)
    }

    constructor (width: nat, native: Endian, value: int)
      requires IsWidth(width) && InSignedRange(value, width)
      ensures Valid() && this.width == width && this.native == native && this.value == value
    {
      this.width, this.native, this.value := width, native, value;
    }

    /** The write vector: start byte with the sign, then the significant bytes of the
        complemented value, as they stand in memory. */
    method MakeNativeEndianWriteVector() returns (vec: seq<Byte>)
      requires Valid()
      ensures vec == WireSigned(native, value, width)
    {
      var word := ToUnsigned(value, width);
      if value < 0 {
        word := Negated(word, width);
      }
      var val := new EncodedUnsigned(width, native, word);
      vec := val.MakeSignedWriteVector(value < 0);
    }

    /** Read from a descriptor: the magnitude as EncodedUnsigned does, then the sign,
        with wrap-around. */
    method Read(src: Source) returns (rc: int)
      requires Valid() && src.Valid()
      modifies this, src
      ensures src.Valid() && Valid()
      ensures match UnwireSigned(old(src.Rest()), width)
              case Some(r) => rc == r.used && value == r.value && src.Rest() == old(src.Rest())[r.used..]
              case None => rc == -1 && value == 0 && src.Rest() == []
    {
      value := 0;
      var val := new EncodedUnsigned(width, native, 0);
      var isNegative;
      rc, isNegative := val.ReadFlagged(src);
      if rc > 0 {
        value := ToSigned(val.Value(), width);
        if isNegative {
          value := ToSigned(-value, width);
        }
      }
    }
  }
}
