/** Strings between FileIO and the other backends, which write their lengths differently. */
module CodecStrings {
  import opened Bytes
  import opened EncodedInteger
  import opened CodecTypes
  import opened Codec
  import opened CodecRoundTrip
  import opened CodecTheorems
  import opened CodecTruncation
  import opened CodecWrites

  // One string

  lemma {:induction false} HighByteIsZero(v: nat, n: nat, i: nat)
    requires i < n && v < Pow256(i)
    ensures ToLittle(v, n)[i] == 0
  {
    if i > 0 {
      HighByteIsZero(v / 256, n - 1, i - 1);
    }
  }

  /** What FileIO writes of a string shorter than 2^48 starts with two zeros, which the
      others take for the length of an empty string. */
  lemma FromFileIO(be: Backend, chars: seq<Byte>, target: Obj, more: seq<Byte>)
    requires !be.File? && |chars| < Pow256(6)
    ensures |chars| < Pow256(8)
    ensures ReadString(be, target, ToBytes(Big, |chars|, 8) + chars + more) == Reading(2, OString([]), 2)
  {
    Pow256Monotone(6, 7);
    Pow256Monotone(7, 8);
    HighByteIsZero(|chars|, 8, 6);
    HighByteIsZero(|chars|, 8, 7);
    var bytes := ToBytes(Big, |chars|, 8) + chars + more;
    assert bytes[0] == 0 && bytes[1] == 0;
    TwoZeros(bytes);
    assert bytes[2..2] == [];
  }

  lemma TwoZeros(bytes: seq<Byte>)
    requires |bytes| >= 2 && bytes[0] == 0 && bytes[1] == 0
    ensures ReadCount(bytes) == Head(0, 2)
  {
    assert bytes[1..2] == [0];
    assert FromLittle([0]) == 0 + 256 * FromLittle([]);
  }

  /** A digit other than zero makes a number at least so large. */
  lemma {:induction false} DigitCounts(s: seq<Byte>, i: nat)
    requires i < |s| && s[i] > 0
    ensures FromLittle(s) >= Pow256(i)
  {
    if i > 0 {
      DigitCounts(s[1..], i - 1);
    }
  }

  /** FileIO takes what the others write of a nonempty string for the start of one of at
      least 2^48 characters: it returns 0 unless that many follow. */
  lemma ToFileIO(be: Backend, u: Backend, chars: seq<Byte>, target: Obj, more: seq<Byte>)
    requires be.File? && !u.File? && 0 < |chars| < Pow256(8)
    ensures var r := ReadString(be, target, LengthBytes(u, |chars|) + chars + more);
            r.rc == 0 || r.used >= Pow256(6)
  {
    var bytes := LengthBytes(u, |chars|) + chars + more;
    if |bytes| >= 8 {
      LengthLooksLong(u.native, |chars|, bytes);
    }
  }

  lemma LongStart(native: Endian, sz: nat)
    requires 2 <= sz <= 8
    ensures StartByte(native, false, sz, 8) >= 1
  {
  }

  lemma ShortWire(native: Endian, n: nat)
    requires ByteLength(n) == 1
    ensures n < 256 && n < Pow256(8)
    ensures Wire(native, false, n, 8) == [StartByte(native, false, 1, 8), n]
  {
    Pow256Monotone(1, 8);
    assert ToLittle(n, 1) == [n % 256] + ToLittle(n / 256, 0) == [n];
    assert Reverse([n as Byte]) == [n];
  }

  lemma LengthLooksLong(native: Endian, n: nat, bytes: seq<Byte>)
    requires 0 < n < Pow256(8) && |bytes| >= 8 && Wire(native, false, n, 8) <= bytes
    ensures FromBytes(Big, bytes[..8]) >= Pow256(6)
  {
    hide StartByte, FromLittle, Pow256, ByteLength, ToBytes;
    var word := Reverse(bytes[..8]);
    var wire := Wire(native, false, n, 8);
    assert word[7] == wire[0] && word[6] == wire[1];
    if ByteLength(n) > 1 {
      ByteLengthIsLeast(n, 8);
      LongStart(native, ByteLength(n));
      DigitCounts(word, 7);
      Pow256Monotone(6, 7);
    } else {
      ShortWire(native, n);
      DigitCounts(word, 6);
    }
  }
}
