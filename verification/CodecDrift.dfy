/** What FileIO wrote, read by the others: the eight bytes of a string's length are too many
    for them, so that they fall behind and never catch up. */
module CodecDrift {
  import opened Bytes
  import opened EncodedInteger
  import opened CodecTypes
  import opened Codec
  import opened CodecRoundTrip
  import opened CodecTheorems
  import opened CodecTruncation
  import opened CodecWrites
  import opened CodecStrings
  import opened CodecInterchange

  /** The bytes by which a reader can be behind: zeros, and where the writer is big endian
      also those that start a count of one or two bytes, and 1. */
  predicate Low(native: Endian, b: Byte) {
    if native.Little? then b == 0 else b % 128 <= 1
  }

  predicate AllLow(native: Endian, s: seq<Byte>) {
    forall i :: 0 <= i < |s| ==> Low(native, s[i])
  }

  /** A reader that was behind by `p`, and has used that many bytes of `p` and the encoding
      `enc` of a value, is behind by low bytes, and not level unless it was level before and
      the value has no string. */
  predicate Drifts(native: Endian, p: seq<Byte>, enc: seq<Byte>, used: nat, str: bool) {
    && used <= |p + enc| && AllLow(native, (p + enc)[used..])
    && (p != [] || str ==> used < |p + enc|)
  }

  lemma DriftsOn(native: Endian, p: seq<Byte>, a: seq<Byte>, b: seq<Byte>, i: nat, j: nat, strA: bool, strB: bool)
    requires Drifts(native, p, a, i, strA) && Drifts(native, (p + a)[i..], b, j, strB)
    ensures Drifts(native, p, a + b, i + j, strA || strB)
  {
    assert (p + (a + b))[i + j..] == ((p + a)[i..] + b)[j..];
  }

  /** What is left of the stream after the first of two parts. */
  lemma Behind(p: seq<Byte>, a: seq<Byte>, b: seq<Byte>, i: nat)
    requires i <= |p + a|
    ensures (p + (a + b))[i..] == (p + a)[i..] + b
  {
  }

  // Repetition

  lemma {:induction false} EchoAt(native: Endian, a: seq<Byte>, s: seq<Byte>, k: nat, i: nat)
    requires AllLow(native, a) && k < |a| && i < |s|
    requires forall j :: 0 <= j < |s| ==> s[j] == (a + s)[k + j]
    ensures Low(native, s[i])
    decreases i
  {
    if k + i >= |a| {
      EchoAt(native, a, s, k, k + i - |a|);
    }
  }

  /** Bytes that are read from before where they are written repeat those in front of them. */
  lemma EchoIsLow(native: Endian, a: seq<Byte>, s: seq<Byte>, k: nat)
    requires AllLow(native, a) && k < |a| && s == (a + s)[k..k + |s|]
    ensures AllLow(native, a + s)
  {
    forall i | 0 <= i < |s| ensures Low(native, s[i]) {
      EchoAt(native, a, s, k, i);
    }
  }

  lemma FixedDrifts(native: Endian, p: seq<Byte>, s: seq<Byte>, more: seq<Byte>)
    requires AllLow(native, p) && (p + (s + more))[..|s|] == s
    ensures Drifts(native, p, s, |s|, false)
  {
    assert (p + (s + more))[..|s|] == (p + s)[..|s|];
    if p == [] {
    } else {
      EchoIsLow(native, p, s, 0);
    }
  }

  lemma NumberDrifts(native: Endian, p: seq<Byte>, v: nat, width: nat, more: seq<Byte>)
    requires AllLow(native, p)
    requires var s := ToBytes(Big, v, width); FromBytes(Big, (p + (s + more))[..width]) == v
    ensures Drifts(native, p, ToBytes(Big, v, width), width, false)
  {
    hide ToBytes, FromBytes;
    var s := ToBytes(Big, v, width);
    WordBack(Big, (p + (s + more))[..width]);
    FixedDrifts(native, p, s, more);
  }

  lemma FlagDrifts(native: Endian, p: seq<Byte>, b: Byte, more: seq<Byte>)
    requires AllLow(native, p) && b <= 1 && ((p + ([b] + more))[0] != 0 <==> b == 1)
    ensures Drifts(native, p, [b], 1, false)
  {
  }

  // Counts

  lemma LowStart(native: Endian, b: Byte)
    requires Low(native, b)
    ensures ParseStart(b, 8).size <= 2
    ensures native.Little? ==> ParseStart(b, 8) == Header(Little, false, 1)
  {
  }

  lemma LittleDigits(a: Byte, b: Byte)
    ensures FromLittle([a]) == a
    ensures FromLittle([a, b]) == a + 256 * b
  {
    assert FromLittle([a]) == a + 256 * FromLittle([]);
    assert [a, b][1..] == [b];
    assert FromLittle([b]) == b + 256 * FromLittle([]);
  }

  /** The number in two bytes of either order. */
  function Pair(e: Endian, a: Byte, b: Byte): nat {
    if e.Little? then a + 256 * b else 256 * a + b
  }

  lemma Digits(e: Endian, a: Byte, b: Byte)
    ensures FromBytes(e, [a]) == a
    ensures FromBytes(e, [a, b]) == Pair(e, a, b)
  {
    hide FromLittle;
    LittleDigits(a, b);
    LittleDigits(b, a);
    assert Reverse([a]) == [a] && Reverse([a, b]) == [b, a];
  }

  lemma CountIs(bytes: seq<Byte>)
    requires ReadCount(bytes).Head?
    ensures var h := ParseStart(bytes[0], 8);
            && 1 + h.size <= |bytes| && ReadCount(bytes).used == 1 + h.size
            && ReadCount(bytes).n == FromBytes(h.order, bytes[1..1 + h.size])
  {
  }

  lemma TwoByteWire(n: nat)
    requires ByteLength(n) == 2
    ensures 256 <= n < 65536 && n < Pow256(8)
    ensures Wire(Big, false, n, 8) == [0x81, n / 256, n % 256]
  {
    assert Pow256(1) == 256 && Pow256(2) == 65536;
    Pow256Monotone(2, 8);
    assert ToLittle(n, 2) == [n % 256] + ToLittle(n / 256, 1) == [n % 256, n / 256];
  }

  lemma SomeWire(native: Endian, n: nat)
    requires n < Pow256(8)
    ensures ByteLength(n) <= 8
    ensures Wire(native, false, n, 8)[0] == ByteLength(n) - 1 + (if native.Big? then 0x80 else 0)
    ensures ByteLength(n) == 1 ==> Wire(native, false, n, 8)[1] == n
  {
    hide ToBytes, Pow256, ByteLength;
    ByteLengthIsLeast(n, 8);
    if ByteLength(n) == 1 {
      ShortWire(native, n);
    }
  }

  lemma FewBytes(n: nat)
    ensures n < 256 ==> ByteLength(n) == 1
    ensures 256 <= n < 65536 ==> ByteLength(n) == 2
  {
  }

  /** A little-endian writer's count, read from behind, must be zero. */
  lemma LittleCount(p: seq<Byte>, n: nat, more: seq<Byte>)
    requires n < Pow256(8) && p != [] && AllLow(Little, p)
    requires var h := ReadCount(p + (Wire(Little, false, n, 8) + more)); h.Head? && h.n == n
    ensures Drifts(Little, p, Wire(Little, false, n, 8), ReadCount(p + (Wire(Little, false, n, 8) + more)).used, false)
  {
    hide Wire, ByteLength, ParseStart, Unwire, ReadCount, FromBytes;
    var wire := Wire(Little, false, n, 8);
    var bytes := p + (wire + more);
    LowStart(Little, bytes[0]);
    CountIs(bytes);
    Digits(Little, bytes[1], 0);
    assert bytes[1..2] == [bytes[1]];
    SomeWire(Little, n);
    FewBytes(n);
    assert bytes[1] == if |p| > 1 then p[1] else wire[0];
    assert n == 0;
    ShortWire(Little, 0);
    assert wire == [0, 0];
  }

  lemma ShortCount(p: seq<Byte>, n: Byte)
    requires p != [] && AllLow(Big, p) && n == (p + [0x80, n])[1]
    ensures Drifts(Big, p, [0x80, n], 2, false)
  {
    assert Low(Big, n);
  }

  lemma PaddedCount(p: seq<Byte>, n: Byte, e: Endian)
    requires p != [] && AllLow(Big, p)
    requires var bytes := p + [0x80, n]; n == Pair(e, bytes[1], bytes[2])
    ensures Drifts(Big, p, [0x80, n], 3, false)
  {
    assert |p| > 1;
    assert Low(Big, n);
  }

  lemma LongCount(p: seq<Byte>, hi: Byte, lo: Byte, e: Endian)
    requires p != [] && AllLow(Big, p)
    requires var bytes := p + [0x81, hi, lo]; 256 * hi + lo == Pair(e, bytes[1], bytes[2])
    ensures Drifts(Big, p, [0x81, hi, lo], 3, false)
  {
    assert Low(Big, lo);
    assert |p| > 1 ==> Low(Big, hi);
  }

  lemma BigCount(p: seq<Byte>, n: nat, more: seq<Byte>)
    requires n < Pow256(8) && p != [] && AllLow(Big, p)
    requires var h := ReadCount(p + (Wire(Big, false, n, 8) + more)); h.Head? && h.n == n
    ensures Drifts(Big, p, Wire(Big, false, n, 8), ReadCount(p + (Wire(Big, false, n, 8) + more)).used, false)
  {
    hide Wire, ByteLength, ParseStart, Unwire, ReadCount, FromBytes, Drifts, Pow256;
    var wire := Wire(Big, false, n, 8);
    var bytes := p + (wire + more);
    var h := ParseStart(bytes[0], 8);
    LowStart(Big, bytes[0]);
    CountIs(bytes);
    assert bytes[1..2] == [bytes[1]];
    SomeWire(Big, n);
    FewBytes(n);
    if h.size == 1 {
      Digits(h.order, bytes[1], 0);
      ShortWire(Big, n);
      assert bytes[1] == (p + wire)[1];
      ShortCount(p, n);
    } else {
      assert bytes[1..3] == [bytes[1], bytes[2]];
      Digits(h.order, bytes[1], bytes[2]);
      assert bytes[1] == (p + wire)[1] && bytes[2] == (p + wire)[2];
      if n < 256 {
        ShortWire(Big, n);
        PaddedCount(p, n, h.order);
      } else {
        TwoByteWire(n);
        LongCount(p, n / 256, n % 256, h.order);
      }
    }
  }

  lemma CountDrifts(native: Endian, p: seq<Byte>, n: nat, more: seq<Byte>)
    requires n < Pow256(8) && AllLow(native, p)
    requires var h := ReadCount(p + (Wire(native, false, n, 8) + more)); h.Head? && h.n == n
    ensures Drifts(native, p, Wire(native, false, n, 8),
                   ReadCount(p + (Wire(native, false, n, 8) + more)).used, false)
  {
    hide Wire, ReadCount;
    var wire := Wire(native, false, n, 8);
    if p == [] {
      assert p + (wire + more) == wire + more && p + wire == wire;
      CountRoundTrip(native, n, more);
    } else if native.Little? {
      LittleCount(p, n, more);
    } else {
      BigCount(p, n, more);
    }
  }

  // Strings

  lemma LowDigits(native: Endian, lo: Byte, hi: Byte)
    requires Low(native, lo) && Low(native, hi)
    ensures AllLow(native, ToBytes(Big, lo + 256 * hi, 8))
  {
    var n: nat := lo + 256 * hi;
    assert n % 256 == lo && n / 256 == hi;
    ZeroBytes(6);
    assert ToLittle(n, 8) == [lo] + ToLittle(hi, 7);
    assert ToLittle(hi, 7) == [hi] + ToLittle(0, 6);
  }

  /** The eight bytes of a length that one or two low bytes spell are low themselves. */
  lemma LengthIsLow(native: Endian, n: nat, a: Byte, b: Byte, e: Endian)
    requires Low(native, a) && Low(native, b) && (n == a || n == Pair(e, a, b))
    ensures AllLow(native, ToBytes(Big, n, 8))
  {
    hide ToBytes;
    LowDigits(native, a, 0);
    LowDigits(native, a, b);
    LowDigits(native, b, a);
  }

  /** FileIO's lengths of fewer than 2^48 characters start with two zeros. */
  lemma LengthStarts(n: nat)
    requires n < Pow256(6)
    ensures ToBytes(Big, n, 8)[0] == 0 && ToBytes(Big, n, 8)[1] == 0
  {
    Pow256Monotone(6, 7);
    HighByteIsZero(n, 8, 6);
    HighByteIsZero(n, 8, 7);
  }

  lemma LevelString(be: Backend, native: Endian, chars: seq<Byte>, target: Obj, more: seq<Byte>)
    requires !be.File? && |chars| < Pow256(6)
    requires var enc := ToBytes(Big, |chars|, 8) + chars;
             ReadString(be, target, enc + more).obj == OString(chars)
    ensures var enc := ToBytes(Big, |chars|, 8) + chars;
            Drifts(native, [], enc, ReadString(be, target, enc + more).used, true)
  {
    hide ReadString;
    FromFileIO(be, chars, target, more);
    ZeroBytes(8);
    var enc := ToBytes(Big, |chars|, 8) + chars;
    assert enc == Zeros(8) && [] + enc == Zeros(8);
  }

  lemma StringGives(be: Backend, bytes: seq<Byte>, chars: seq<Byte>, target: Obj)
    requires !be.File?
    requires var r := ReadString(be, target, bytes); r.rc == r.used && r.obj == OString(chars)
    ensures var c, r := ReadCount(bytes), ReadString(be, target, bytes);
            && c.Head? && c.n == |chars| && r.used == c.used + c.n <= |bytes| && chars == bytes[c.used..r.used]
  {
    hide ReadCount, Zeros;
  }

  /** A reader that is behind takes the length of a string from low bytes and zeros. */
  lemma LengthFromBehind(native: Endian, p: seq<Byte>, n: nat, more: seq<Byte>)
    requires n < Pow256(6) && p != [] && AllLow(native, p)
    requires var c := ReadCount(p + (ToBytes(Big, n, 8) + more)); c.Head? && c.n == n
    ensures AllLow(native, p + ToBytes(Big, n, 8))
    ensures ReadCount(p + (ToBytes(Big, n, 8) + more)).used <= 3
  {
    hide ToBytes, FromBytes, ParseStart, ReadCount, Pow256;
    var bytes := p + (ToBytes(Big, n, 8) + more);
    var h := ParseStart(bytes[0], 8);
    LengthStarts(n);
    LowStart(native, bytes[0]);
    CountIs(bytes);
    var a, b := bytes[1], bytes[2];
    assert bytes[1..2] == [a] && bytes[1..3] == [a, b];
    Digits(h.order, a, b);
    LengthIsLow(native, n, a, b, h.order);
  }

  lemma StringDrifts(be: Backend, native: Endian, p: seq<Byte>, chars: seq<Byte>, target: Obj, more: seq<Byte>)
    requires !be.File? && |chars| < Pow256(6) && p != [] && AllLow(native, p)
    requires var r := ReadString(be, target, p + (ToBytes(Big, |chars|, 8) + chars + more));
             r.rc == r.used && r.obj == OString(chars)
    ensures Drifts(native, p, ToBytes(Big, |chars|, 8) + chars,
                   ReadString(be, target, p + (ToBytes(Big, |chars|, 8) + chars + more)).used, true)
  {
    hide ToBytes, ReadCount, Pow256, ReadString, Low;
    var word := ToBytes(Big, |chars|, 8);
    var bytes := p + (word + chars + more);
    StringGives(be, bytes, chars, target);
    assert word + chars + more == word + (chars + more);
    LengthFromBehind(native, p, |chars|, chars + more);
    var k := ReadCount(bytes).used;
    assert bytes[k..k + |chars|] == (p + word + chars)[k..k + |chars|];
    EchoIsLow(native, p + word, chars, k);
    assert p + (word + chars) == p + word + chars;
  }

  // Values

  lemma LeafDrifts(be: Backend, w: Backend, t: Ty, v: Val, target: Obj, p: seq<Byte>, more: seq<Byte>)
    requires WellTyped(t, v) && !IsList(t) && !t.TVariant? && StringsFit(t, v) && !be.File? && w.File?
    requires AllLow(w.native, p)
    requires var r := ReadLeaf(be, t, target, p + (EncodeLeaf(w, t, v) + more));
             r.rc == r.used && r.obj == AbsLeaf(t, v)
    ensures Drifts(w.native, p, EncodeLeaf(w, t, v),
                   ReadLeaf(be, t, target, p + (EncodeLeaf(w, t, v) + more)).used, t.TString?)
  {
    hide ToBytes, FromBytes, ReadString, Pow256, Drifts, AllLow;
    var bytes := p + (EncodeLeaf(w, t, v) + more);
    match t
    case TInt(width) => NumberDrifts(w.native, p, v.bits, width, more);
    case TBool => FlagDrifts(w.native, p, if v.b then 1 else 0, more);
    case TFloat(_) => FixedDrifts(w.native, p, v.xdr, more);
    case TString =>
      if p == [] {
        assert bytes == EncodeLeaf(w, t, v) + more;
        LevelString(be, w.native, v.chars, target, more);
      } else {
        StringDrifts(be, w.native, p, v.chars, target, more);
      }
    case TMono => NothingDrifts(w.native, p);
  }

  lemma NothingDrifts(native: Endian, p: seq<Byte>)
    requires AllLow(native, p)
    ensures Drifts(native, p, [], 0, false)
  {
  }

  lemma HeadDrifts(w: Backend, t: Ty, n: nat, p: seq<Byte>, more: seq<Byte>)
    requires IsList(t) && !t.TMap? && n < Pow256(8) && AllLow(w.native, p)
    requires (t.TBounded? ==> n == t.n) && (t.TOptional? ==> n <= 1)
    requires var h := ReadHead(t, p + (HeadBytes(w, t, n) + more)); h.Head? && (t.TCont? || t.TOptional? ==> h.n == n)
    ensures Drifts(w.native, p, HeadBytes(w, t, n), ReadHead(t, p + (HeadBytes(w, t, n) + more)).used, false)
  {
    hide ToBytes, FromBytes, Pow256, Drifts, AllLow, ReadCount, Wire;
    if t.TBounded? {
      NumberDrifts(w.native, p, n, 8, more);
    } else if t.TCont? {
      CountDrifts(w.native, p, n, more);
    } else if t.TOptional? {
      FlagDrifts(w.native, p, if n == 0 then 0 else 1, more);
    } else {
      NothingDrifts(w.native, p);
    }
  }

  /** A new object, read by a backend that is behind by `p`, can only get the value written
      if the backend stays behind. */
  lemma {:induction false} ReaderDrifts(be: Backend, w: Backend, t: Ty, v: Val, p: seq<Byte>, more: seq<Byte>)
    requires WellTyped(t, v) && Ordered(be, t) && StringsFit(t, v) && !be.File? && w.File? && AllLow(w.native, p)
    requires var r := ReadFrom(be, t, Default(t), p + (Encode(w, t, v) + more)); r.rc == r.used && r.obj == Abs(t, v)
    ensures Drifts(w.native, p, Encode(w, t, v),
                   ReadFrom(be, t, Default(t), p + (Encode(w, t, v) + more)).used, HasString(t, v))
    decreases v, 0
  {
    hide Drifts, AllLow, Default, Gather;
    if IsList(t) {
      ListDrifts(be, w, t, v, p, more);
    } else if t.TVariant? {
      VariantDrifts(be, w, t, v, p, more);
    } else {
      LeafDrifts(be, w, t, v, Default(t), p, more);
    }
  }

  lemma VariantEncodes(w: Backend, t: Ty, v: Val)
    requires WellTyped(t, v) && t.TVariant?
    ensures Encode(w, t, v) == ToBytes(Big, v.index, 8) + Encode(w, t.alts[v.index], v.content)
    ensures HasString(t, v) == HasString(t.alts[v.index], v.content)
    ensures StringsFit(t, v) == StringsFit(t.alts[v.index], v.content)
  {
  }

  /** What a variant reading that gives a value must have read. */
  lemma VariantGives(be: Backend, t: Ty, v: Val, target: Obj, bytes: seq<Byte>)
    requires WellTyped(t, v) && t.TVariant? && Ordered(be, t) && !be.File?
    requires var r := ReadFrom(be, t, target, bytes); r.rc == r.used && r.obj == Abs(t, v)
    ensures |bytes| >= 8 && FromBytes(Big, bytes[..8]) == v.index
    ensures var r, alt := ReadFrom(be, t, target, bytes), t.alts[v.index];
            var c := ReadFrom(be, alt, Default(alt), bytes[8..]);
            c.rc == c.used && c.obj == Abs(alt, v.content) && r.used == 8 + c.used && Ordered(be, alt)
  {
    hide Default, Gather, FromBytes;
    OrderedAt(be, t.alts, v.index);
  }

  lemma StillLow(native: Endian, p: seq<Byte>, enc: seq<Byte>, used: nat, str: bool)
    requires Drifts(native, p, enc, used, str)
    ensures used <= |p + enc| && AllLow(native, (p + enc)[used..])
  {
  }

  lemma {:induction false} VariantDrifts(be: Backend, w: Backend, t: Ty, v: Val, p: seq<Byte>, more: seq<Byte>)
    requires WellTyped(t, v) && t.TVariant? && Ordered(be, t) && StringsFit(t, v) && !be.File? && w.File?
    requires AllLow(w.native, p)
    requires var r := ReadFrom(be, t, Default(t), p + (Encode(w, t, v) + more)); r.rc == r.used && r.obj == Abs(t, v)
    ensures Drifts(w.native, p, Encode(w, t, v),
                   ReadFrom(be, t, Default(t), p + (Encode(w, t, v) + more)).used, HasString(t, v))
    decreases v.content, 2
  {
    hide Drifts, AllLow, Default, Gather, ReadFrom, Encode, ToBytes, FromBytes, Pow256, Ordered, HasString, StringsFit;
    var alt, content := t.alts[v.index], v.content;
    var head, body := ToBytes(Big, v.index, 8), Encode(w, alt, content);
    var bytes := p + (Encode(w, t, v) + more);
    VariantEncodes(w, t, v);
    assert head + body + more == head + (body + more);
    VariantGives(be, t, v, Default(t), bytes);
    NumberDrifts(w.native, p, v.index, 8, body + more);
    StillLow(w.native, p, head, 8, false);
    var behind := (p + head)[8..];
    Behind(p, head, body + more, 8);
    ReaderDrifts(be, w, alt, content, behind, more);
    DriftsOn(w.native, p, head, body, 8, ReadFrom(be, alt, Default(alt), behind + (body + more)).used, false,
             HasString(alt, content));
  }

  lemma ListEncodes(w: Backend, t: Ty, v: Val)
    requires WellTyped(t, v) && IsList(t)
    ensures Encode(w, t, v) == HeadBytes(w, t, |v.items|) + EncodeAll(w, Kids(t, |v.items|), v.items)
    ensures HasString(t, v) == AnyString(Kids(t, |v.items|), v.items)
    ensures StringsFit(t, v) == AllStringsFit(Kids(t, |v.items|), v.items)
  {
  }

  lemma {:induction false} ListDrifts(be: Backend, w: Backend, t: Ty, v: Val, p: seq<Byte>, more: seq<Byte>)
    requires WellTyped(t, v) && IsList(t) && Ordered(be, t) && StringsFit(t, v) && !be.File? && w.File?
    requires AllLow(w.native, p)
    requires var r := ReadFrom(be, t, Default(t), p + (Encode(w, t, v) + more)); r.rc == r.used && r.obj == Abs(t, v)
    ensures Drifts(w.native, p, Encode(w, t, v),
                   ReadFrom(be, t, Default(t), p + (Encode(w, t, v) + more)).used, HasString(t, v))
    decreases v.items, 2
  {
    hide Drifts, AllLow, Default, Gather, ReadFrom, ReadAll, Encode, EncodeAll, HeadBytes, ReadHead, KidTargets, Kids,
      Abs, AbsAll, Ordered, HasString, StringsFit, AnyString, AllStringsFit, Narrows;
    var vs := v.items;
    var ts := Kids(t, |vs|);
    var head, body := HeadBytes(w, t, |vs|), EncodeAll(w, ts, vs);
    var bytes := p + (Encode(w, t, v) + more);
    ListEncodes(w, t, v);
    assert head + body + more == head + (body + more);
    ListRead(be, t, v, Default(t), bytes);
    ItemsFit(t, v);
    KidsOrdered(be, t, |vs|);
    DefaultKidTargets(t, |vs|);
    HeadDrifts(w, t, |vs|, p, body + more);
    var k := ReadHead(t, bytes).used;
    StillLow(w.native, p, head, k, false);
    var behind := (p + head)[k..];
    Behind(p, head, body + more, k);
    AllDrift(be, w, Narrows(t, be), ts, vs, behind, more);
    DriftsOn(w.native, p, head, body, k, KidsRead(be, t, v, Default(t), bytes).used, false, AnyString(ts, vs));
  }

  lemma {:induction false} AllDrift(be: Backend, w: Backend, narrow: bool, ts: seq<Ty>, vs: seq<Val>, p: seq<Byte>,
          more: seq<Byte>)
    requires AllWellTyped(ts, vs) && AllOrdered(be, ts) && AllStringsFit(ts, vs) && !be.File? && w.File?
    requires AllLow(w.native, p)
    requires var m := ReadAll(be, narrow, ts, Defaults(ts), p + (EncodeAll(w, ts, vs) + more));
             m.n == |ts| && m.objs == AbsAll(ts, vs) && m.rc == m.used
    ensures Drifts(w.native, p, EncodeAll(w, ts, vs),
                   ReadAll(be, narrow, ts, Defaults(ts), p + (EncodeAll(w, ts, vs) + more)).used, AnyString(ts, vs))
    decreases vs, 1
  {
    hide Drifts, AllLow, Default, ReadFrom, Encode, Abs, Ordered, HasString, StringsFit, Kept;
    if ts == [] {
      NothingDrifts(w.native, p);
    } else {
      var first, rest := Encode(w, ts[0], vs[0]), EncodeAll(w, ts[1..], vs[1..]);
      var bytes := p + (first + rest + more);
      assert first + rest + more == first + (rest + more);
      EachCounts(be, narrow, ts, vs, bytes);
      ReaderDrifts(be, w, ts[0], vs[0], p, rest + more);
      var k := ReadFrom(be, ts[0], Default(ts[0]), bytes).used;
      StillLow(w.native, p, first, k, HasString(ts[0], vs[0]));
      var behind := (p + first)[k..];
      Behind(p, first, rest + more, k);
      AllDrift(be, w, narrow, ts[1..], vs[1..], behind, more);
      DriftsOn(w.native, p, first, rest, k, ReadAll(be, narrow, ts[1..], Defaults(ts[1..]), bytes[k..]).used,
               HasString(ts[0], vs[0]), AnyString(ts[1..], vs[1..]));
    }
  }

  /** If all components together count what they consume, so does each. */
  lemma EachCounts(be: Backend, narrow: bool, ts: seq<Ty>, vs: seq<Val>, bytes: seq<Byte>)
    requires AllWellTyped(ts, vs) && ts != [] && !be.File?
    requires var m := ReadAll(be, narrow, ts, Defaults(ts), bytes);
             m.n == |ts| && m.objs == AbsAll(ts, vs) && m.rc == m.used
    ensures var m, r := ReadAll(be, narrow, ts, Defaults(ts), bytes), ReadFrom(be, ts[0], Default(ts[0]), bytes);
            var k := ReadAll(be, narrow, ts[1..], Defaults(ts[1..]), bytes[r.used..]);
            && r.rc == r.used && r.obj == Abs(ts[0], vs[0])
            && k.n == |ts[1..]| && k.objs == AbsAll(ts[1..], vs[1..]) && k.rc == k.used && m.used == r.used + k.used
  {
    hide ReadFrom, ReadAll, Default, Abs, AbsAll, Kept;
    var r := ReadFrom(be, ts[0], Default(ts[0]), bytes);
    assert Defaults(ts)[0] == Default(ts[0]) && Defaults(ts)[1..] == Defaults(ts[1..]);
    FirstOfAll(be, narrow, ts, vs, Defaults(ts), bytes);
    CountBound(be, ts[0], Default(ts[0]), bytes);
    KeptShrinks(narrow, r.rc);
    AllCountBound(be, narrow, ts[1..], Defaults(ts[1..]), bytes[r.used..]);
  }

  /** None of the others gets a value with a string out of just the bytes FileIO wrote of it. */
  lemma StringsStayInside(be: Backend, w: Backend, t: Ty, v: Val, more: seq<Byte>)
    requires !be.File? && w.File? && WellTyped(t, v) && Ordered(be, t) && StringsFit(t, v) && HasString(t, v)
    ensures !Succeeds(be, ReadFrom(be, t, Default(t), Encode(w, t, v) + more), Abs(t, v), |Encode(w, t, v)|)
  {
    hide ReadFrom, Encode, Abs, Ordered, Default;
    var bytes := Encode(w, t, v) + more;
    if Succeeds(be, ReadFrom(be, t, Default(t), bytes), Abs(t, v), |Encode(w, t, v)|) {
      assert [] + bytes == bytes && [] + Encode(w, t, v) == Encode(w, t, v);
      ReaderDrifts(be, w, t, v, [], more);
      assert false;
    }
  }

  /** Between FileIO and the others, a new object gets exactly the values without strings. */
  lemma CrossReadsExactly(be: Backend, w: Backend, t: Ty, v: Val, more: seq<Byte>)
    requires be.File? != w.File? && WellTyped(t, v) && Ordered(be, t) && StringsFit(t, v)
             && (be.File? || Solid(w, t, v))
    ensures Succeeds(be, ReadFrom(be, t, Default(t), Encode(w, t, v) + more), Abs(t, v), |Encode(w, t, v)|)
       <==> !HasString(t, v)
  {
    hide ReadFrom, Encode, Abs, Ordered, Default, Solid, HasString, StringsFit;
    if !HasString(t, v) {
      DefaultIsNotStale(t, v);
      BackendsInterchange(be, w, t, v, Default(t), more);
    } else if be.File? {
      StringsStayOutside(be, w, t, v, Default(t), more);
    } else {
      StringsStayInside(be, w, t, v, more);
    }
  }
}
