/** Inputs at which the serializers fall short of what they are for. The conditions under
    which they do not are theorems of the other codec modules. */
module CodecExamples {
  import opened Bytes
  import opened EncodedInteger
  import opened CodecTypes
  import opened Codec
  import opened CodecRoundTrip
  import opened CodecTheorems
  import opened CodecTruncation
  import opened CodecWrites
  import opened CodecLengths
  import opened CodecStrings
  import opened CodecDrift

  /** DescriptorIO reads an optional without a value into one that holds 7, returns the one
      byte it consumed, and the 7 is still there. FileIO empties it. */
  lemma StaleOptional(w: Backend, native: Endian)
    ensures var t, v, target := TOptional(TInt(1)), VList([]), OList([OInt(7)]);
            && WellTyped(t, v) && Abs(t, v) == OList([])
            && ReadFrom(Descriptor(native), t, target, Encode(w, t, v)) == Reading(1, target, 1)
            && ReadFrom(File(native), t, target, Encode(w, t, v)).obj == Abs(t, v)
  {
  }

  /** The first three bytes of a float satisfy DescriptorIO and GZIO, which return 3, but
      neither BZ2IO nor FileIO. */
  lemma TruncatedFloat(native: Endian, target: Obj, a: Byte, b: Byte, c: Byte)
    ensures ReadFrom(Descriptor(native), TFloat(4), target, [a, b, c]).rc == 3
    ensures ReadFrom(Gz(native), TFloat(4), target, [a, b, c]).rc == 3
    ensures ReadFrom(Bz2(native), TFloat(4), target, [a, b, c]).rc == -1
    ensures ReadFrom(File(native), TFloat(4), target, [a, b, c]).rc == 0
  {
  }

  /** The index of a variant and nothing after it: GZIO and BZ2IO add the eight bytes of
      the index to the -1 of its content and return 7, and return 8 for an index that
      names no alternative. The others report both. */
  lemma TruncatedVariant(native: Endian, target: Obj)
    ensures var t := TVariant([TString]);
            && ReadFrom(Gz(native), t, target, Zeros(8)).rc == 7 && ReadFrom(Bz2(native), t, target, Zeros(8)).rc == 7
            && ReadFrom(Descriptor(native), t, target, Zeros(8)).rc == -1
            && ReadFrom(File(native), t, target, Zeros(8)).rc == 0
    ensures var t := TVariant([]);
            && ReadFrom(Gz(native), t, target, Zeros(8)).rc == 8
            && ReadFrom(Descriptor(native), t, target, Zeros(8)).rc == -1
  {
    hide ReadFrom;
    IndexAlone(Gz(native), target);
    IndexAlone(Bz2(native), target);
    IndexAlone(Descriptor(native), target);
    IndexAlone(File(native), target);
    BadIndex(Gz(native), target);
    BadIndex(Descriptor(native), target);
  }

  lemma IndexAlone(be: Backend, target: Obj)
    ensures ReadFrom(be, TVariant([TString]), target, Zeros(8)).rc == VariantCount(be, Fail(be))
  {
    hide ReadFrom, Default, FromBytes;
    ZerosAreZero();
    assert Zeros(8)[..8] == Zeros(8) && Zeros(8)[8..] == [];
    ReadVariantStep(be, TVariant([TString]), target, Zeros(8));
    StringFromNothing(be, Default(TString));
  }

  lemma StringFromNothing(be: Backend, target: Obj)
    ensures ReadFrom(be, TString, target, []).rc == Fail(be)
  {
  }

  lemma BadIndex(be: Backend, target: Obj)
    ensures ReadFrom(be, TVariant([]), target, Zeros(8)).rc == if be.Gz? || be.Bz2? then 8 else Fail(be)
  {
  }

  lemma ZerosAreZero()
    ensures FromBytes(Big, Zeros(8)) == 0
  {
    BytesRoundTrip(Big, 0, 8);
    ZeroBytes(8);
    assert Reverse(Zeros(8)) == Zeros(8);
  }

  /** A vector of one integer, written into a stream that has room for the count alone:
      every backend but FileIO returns 1. */
  lemma RefusedElement(w: Backend, bits: nat)
    requires bits < Pow256(4)
    ensures var t, v := TCont(Sequence, TInt(4)), VList([VInt(bits)]);
            WellTyped(t, v) && WriteTo(w, t, v, 2) == Writing(if w.File? then 0 else 1, HeadBytes(w, t, 1))
  {
    var t, v := TCont(Sequence, TInt(4)), VList([VInt(bits)]);
    OneInteger(bits);
    assert Copies(TInt(4), 1) == [TInt(4)];
    assert WriteTo(w, TInt(4), VInt(bits), 0).rc <= 0 && WriteTo(w, TInt(4), VInt(bits), 0).sent == [];
    assert WriteAll(w, false, [TInt(4)], v.items, 0) == Writings(0, 0, []);
    WriteListStep(w, t, v, 2);
  }

  lemma OneInteger(bits: nat)
    requires bits < Pow256(4)
    ensures WellTyped(TInt(4), VInt(bits)) && AllWellTyped([TInt(4)], [VInt(bits)])
    ensures WellTyped(TCont(Sequence, TInt(4)), VList([VInt(bits)]))
    ensures WellTyped(TBounded(TInt(4), 1), VList([VInt(bits)]))
  {
    var ts, vs := [TInt(4)], [VInt(bits)];
    assert Copies(TInt(4), 1) == [TInt(4)] + Copies(TInt(4), 0) == ts;
    assert ts[1..] == [] && vs[1..] == [];
    assert WellTyped(ts[0], vs[0]) && AllWellTyped(ts[1..], vs[1..]);
    assert Kids(TCont(Sequence, TInt(4)), 1) == ts && Kids(TBounded(TInt(4), 1), 1) == ts;
    Pow256Monotone(1, 8);
  }

  /** An int[1] takes twelve bytes; both lengths announce four. */
  lemma BoundedArrayLength(w: Backend, bits: nat)
    requires bits < Pow256(4)
    ensures var t, v := TBounded(TInt(4), 1), VList([VInt(bits)]);
            && WellTyped(t, v) && |Encode(w, t, v)| == 12
            && HasConstStreamedLength(t) && ConstStreamedLength(t) == 4
            && StreamedLength(t, v) == Some(4)
  {
    var t, v := TBounded(TInt(4), 1), VList([VInt(bits)]);
    OneInteger(bits);
    assert Kids(t, 1) == [TInt(4)];
    assert TotalLength([TInt(4)], v.items) == Some(4);
    assert |EncodeAll(w, [TInt(4)], v.items)| == 4;
  }

  /** The empty string takes two bytes from DescriptorIO and eight from FileIO, which reads
      a length out of whatever follows those two. */
  lemma EmptyStrings(native: Endian)
    ensures |Encode(Descriptor(native), TString, VString([]))| == 2
    ensures |Encode(File(native), TString, VString([]))| == 8
    ensures ReadFrom(File(native), TString, OString([]), Encode(Descriptor(native), TString, VString([]))).rc == 0
  {
  }

  /** A tuple of a number and an empty array cannot be read back: the array's read
      returns 0, and the tuple's then something other than the four bytes it consumes. */
  lemma EmptyArrayMember(be: Backend, w: Backend, bits: nat, target: Obj)
    requires bits < Pow256(4) && !be.File? && !w.File?
    ensures var t, v := TTuple([TInt(4), TArray(TInt(4), 0)]), VList([VInt(bits), VList([])]);
            && WellTyped(t, v)
            && |Encode(w, t, v)| == 4
            && ReadFrom(be, t, target, Encode(w, t, v)).rc < ReadFrom(be, t, target, Encode(w, t, v)).used
  {
    hide Encode, EncodeAll, ReadFrom, Solid, WellTyped;
    var t, v := TTuple([TInt(4), TArray(TInt(4), 0)]), VList([VInt(bits), VList([])]);
    NumberAndNothing(w, bits);
    assert Encode(w, t, v) + [] == Encode(w, t, v);
    HollowReadFails(be, w, t, v, target, []);
  }

  lemma NumberAndNothing(w: Backend, bits: nat)
    requires bits < Pow256(4) && !w.File?
    ensures var t, v := TTuple([TInt(4), TArray(TInt(4), 0)]), VList([VInt(bits), VList([])]);
            WellTyped(t, v) && |Encode(w, t, v)| == 4 && !Solid(w, t, v)
  {
    hide Encode, EncodeAll;
    var ts, vs := [TInt(4), TArray(TInt(4), 0)], [VInt(bits), VList([])];
    OneInteger(bits);
    Pow256Monotone(1, 8);
    assert ts[1..] == [TArray(TInt(4), 0)] && vs[1..] == [VList([])] && ts[1..][1..] == [];
    EmptyArray(w);
    ListSizeIs(w, TTuple(ts), VList(vs));
    AllSizeIs(w, ts, vs);
    NumberSize(w, bits);
    assert !AllSolid(w, true, ts[1..], vs[1..]);
    assert !AllSolid(w, true, ts, vs);
  }

  lemma NumberSize(w: Backend, bits: nat)
    requires bits < Pow256(4)
    ensures WellTyped(TInt(4), VInt(bits)) && |Encode(w, TInt(4), VInt(bits))| == 4
  {
  }

  lemma EmptyArray(w: Backend)
    ensures WellTyped(TArray(TInt(4), 0), VList([])) && AllWellTyped([TArray(TInt(4), 0)], [VList([])])
    ensures |Encode(w, TArray(TInt(4), 0), VList([]))| == 0 && |EncodeAll(w, [TArray(TInt(4), 0)], [VList([])])| == 0
  {
    Pow256Monotone(1, 8);
  }

  // A bag read out of step

  const A: Byte := 0x61

  lemma ReadsEmpty(be: Backend, target: Obj, bytes: seq<Byte>)
    requires !be.File? && |bytes| >= 2 && bytes[0] == 0 && bytes[1] == 0
    ensures ReadFrom(be, TString, target, bytes) == Reading(2, OString([]), 2)
  {
    TwoZeros(bytes);
    assert bytes[2..2] == [];
  }

  lemma ReadsOne(be: Backend, target: Obj, bytes: seq<Byte>)
    requires !be.File? && |bytes| >= 3 && bytes[0] == 0 && bytes[1] == 1 && bytes[2] == A
    ensures ReadFrom(be, TString, target, bytes) == Reading(3, OString([A]), 3)
  {
    hide FromBytes;
    CountOfOne(bytes);
    assert bytes[2..3] == [A];
  }

  lemma CountOfOne(bytes: seq<Byte>)
    requires |bytes| >= 2 && bytes[0] == 0 && bytes[1] == 1
    ensures ReadCount(bytes) == Head(1, 2)
  {
    hide FromBytes;
    assert bytes[1..2] == [1];
    Digits(Little, 1, 0);
  }

  /** One string more in front of others. */
  lemma ReadsMore(be: Backend, n: nat, bytes: seq<Byte>)
    requires !be.File?
    requires ReadFrom(be, TString, OString([]), bytes).rc > 0
    ensures var r := ReadFrom(be, TString, OString([]), bytes);
            var ts, ts' := Copies(TString, n), Copies(TString, n + 1);
            var m := ReadAll(be, false, ts, Defaults(ts), bytes[r.used..]);
            ReadAll(be, false, ts', Defaults(ts'), bytes)
            == Readings(1 + m.n, r.rc + m.rc, [r.obj] + m.objs, r.used + m.used)
  {
    hide ReadFrom, ReadAll;
    var ts := Copies(TString, n + 1);
    assert ts[1..] == Copies(TString, n) && Defaults(ts)[1..] == Defaults(ts[1..]);
    ReadAllStep(be, false, ts, Defaults(ts), bytes);
  }

  /** The length and character of a string in FileIO's form, read as four strings. */
  lemma ReadsThreeAndOne(be: Backend, bytes: seq<Byte>)
    requires !be.File? && |bytes| >= 9 && bytes[..9] == Zeros(7) + [1, A]
    ensures var ts := Copies(TString, 4);
            ReadAll(be, false, ts, Defaults(ts), bytes)
            == Readings(4, 9, [OString([]), OString([]), OString([]), OString([A])], 9)
  {
    hide ReadFrom, ReadAll;
    assert forall i :: 0 <= i < 9 ==> bytes[i] == (Zeros(7) + [1, A])[i];
    assert bytes[2..][2..] == bytes[4..] && bytes[4..][2..] == bytes[6..];
    ReadsEmpty(be, OString([]), bytes);
    ReadsEmpty(be, OString([]), bytes[2..]);
    ReadsEmpty(be, OString([]), bytes[4..]);
    ReadsOne(be, OString([]), bytes[6..]);
    ReadsMore(be, 3, bytes);
    ReadsMore(be, 2, bytes[2..]);
    ReadsMore(be, 1, bytes[4..]);
    ReadsMore(be, 0, bytes[6..]);
    NoneToRead(be, false, [], [], bytes[6..][3..]);
  }

  /** Three empty strings and one that is not, in a bag, the latter first. */
  function FourStrings(): seq<Val> {
    [VString([A]), VString([]), VString([]), VString([])]
  }

  /** One string more in front of typed ones. */
  lemma OneMoreString(w: Backend, chars: seq<Byte>, n: nat, vs: seq<Val>)
    requires |chars| < 256 && AllWellTyped(Copies(TString, n), vs)
    ensures WellTyped(TString, VString(chars)) && AllWellTyped(Copies(TString, n + 1), [VString(chars)] + vs)
    ensures AbsAll(Copies(TString, n + 1), [VString(chars)] + vs) == [OString(chars)] + AbsAll(Copies(TString, n), vs)
    ensures EncodeAll(w, Copies(TString, n + 1), [VString(chars)] + vs)
            == Encode(w, TString, VString(chars)) + EncodeAll(w, Copies(TString, n), vs)
  {
    hide Encode;
    Pow256Monotone(1, 8);
    var ts, us := Copies(TString, n + 1), [VString(chars)] + vs;
    assert ts[1..] == Copies(TString, n) && us[1..] == vs && us[0] == VString(chars);
  }

  lemma FourStringsAreTyped(w: Backend)
    ensures WellTyped(TString, VString([])) && WellTyped(TString, VString([A]))
    ensures AllWellTyped(Copies(TString, 4), FourStrings())
    ensures WellTyped(TCont(Multiset, TString), VList(FourStrings()))
    ensures AbsAll(Copies(TString, 4), FourStrings()) == [OString([A]), OString([]), OString([]), OString([])]
    ensures var e := Encode(w, TString, VString([]));
            EncodeAll(w, Copies(TString, 4), FourStrings())
            == Encode(w, TString, VString([A])) + (e + (e + (e + [])))
  {
    hide Copies, AbsAll, AllWellTyped, Encode, EncodeAll;
    Pow256Monotone(1, 8);
    NoStrings(w);
    var none: seq<Byte>, empty := [], VString([]);
    var one, two, three := [empty] + [], [empty] + ([empty] + []), [empty] + ([empty] + ([empty] + []));
    OneMoreString(w, none, 0, []);
    OneMoreString(w, none, 1, one);
    OneMoreString(w, none, 2, two);
    OneMoreString(w, [A], 3, three);
    assert [VString([A])] + three == FourStrings();
    assert [OString([A])] + ([OString([])] + ([OString([])] + ([OString([])] + [])))
           == [OString([A]), OString([]), OString([]), OString([])];
  }

  lemma NoStrings(w: Backend)
    ensures AllWellTyped(Copies(TString, 0), []) && AbsAll(Copies(TString, 0), []) == []
    ensures EncodeAll(w, Copies(TString, 0), []) == []
  {
  }

  lemma WordOf(b: Byte)
    ensures b < Pow256(8) && ToBytes(Big, b, 8) == Zeros(7) + [b]
  {
    Pow256Monotone(1, 8);
    ZeroBytes(7);
    assert ToLittle(b, 8) == [b] + ToLittle(0, 7);
  }

  lemma OneStringIs(w: Backend)
    requires w.File?
    ensures WellTyped(TString, VString([])) && Encode(w, TString, VString([])) == Zeros(8)
    ensures WellTyped(TString, VString([A])) && Encode(w, TString, VString([A])) == Zeros(7) + [1, A]
  {
    WordOf(0);
    WordOf(1);
    assert Zeros(7) + [0] == Zeros(8);
  }

  lemma FourStringsAre(w: Backend)
    requires w.File?
    ensures AllWellTyped(Copies(TString, 4), FourStrings())
    ensures var body := EncodeAll(w, Copies(TString, 4), FourStrings()); |body| == 33 && body[..9] == Zeros(7) + [1, A]
  {
    hide Encode, EncodeAll, Copies, AllWellTyped, WellTyped;
    FourStringsAreTyped(w);
    OneStringIs(w);
  }

  /** A reader out of step can come upon the right bag by chance: of this one it gets all
      four strings, in another order, from 11 of its 35 bytes. */
  lemma BagByChance(be: Backend, w: Backend, target: Obj)
    requires !be.File? && w.File?
    ensures var t, v := TCont(Multiset, TString), VList(FourStrings());
            && WellTyped(t, v) && |Encode(w, t, v)| == 35
            && ReadFrom(be, t, target, Encode(w, t, v)) == Reading(11, Abs(t, v), 11)
  {
    hide ReadFrom, ReadAll, Encode, EncodeAll, Copies, AbsAll, Abs, AllWellTyped, Gather, Wire;
    var t, v := TCont(Multiset, TString), VList(FourStrings());
    var ts := Copies(TString, 4);
    FourStringsAreTyped(File(Little));
    FourStringsAre(w);
    ListBytes(w, t, v);
    var body := EncodeAll(w, ts, v.items);
    CountRoundTrip(w.native, 4, body);
    ReadsThreeAndOne(be, body);
    ReadListStep(be, t, target, Encode(w, t, v));
    BagOfFour(t, v);
    assert Encode(w, t, v)[2..] == body;
    var objs := [OString([]), OString([]), OString([]), OString([A])];
    assert objs[..4] == objs;
  }

  lemma BagTurns(t: Ty, x: Obj, xs: seq<Obj>)
    requires t.TCont? && t.kind.Multiset?
    ensures Gather(t, [x] + xs) == Gather(t, xs + [x])
  {
    hide Gather;
    GatherBag(t, [x] + xs);
    GatherBag(t, xs + [x]);
  }

  lemma BagIs(t: Ty, v: Val)
    requires t.TCont? && WellTyped(t, v)
    ensures Abs(t, v) == Gather(t, AbsAll(Copies(t.elem, |v.items|), v.items))
  {
    hide Gather, AbsAll, Copies;
  }

  lemma BagOfFour(t: Ty, v: Val)
    requires t == TCont(Multiset, TString) && v == VList(FourStrings()) && WellTyped(t, v)
    ensures Abs(t, v) == Gather(t, [OString([]), OString([]), OString([]), OString([A])])
  {
    hide Gather, Abs, AbsAll, WellTyped, AllWellTyped, Copies;
    var few := [OString([]), OString([]), OString([])];
    FourStringsAreTyped(File(Little));
    BagIs(t, v);
    BagTurns(t, OString([A]), few);
    assert [OString([A])] + few == AbsAll(Copies(TString, 4), FourStrings());
    assert few + [OString([A])] == [OString([]), OString([]), OString([]), OString([A])];
  }
}
