/** The encoding byte by byte, and what a reader makes of any bytes, written by value or not:
    every number by place value and every component at its offset. */
module CodecLayout {
  import opened Bytes
  import opened EncodedInteger
  import opened CodecTypes
  import opened Codec
  import opened CodecRoundTrip

  // Components

  /** The type of component `i`. */
  function PartType(t: Ty, i: nat): Ty
    requires IsList(t) && (t.TTuple? ==> i < |t.members|)
  {
    match t
    case TPair(a, b) => if i == 0 then a else b
    case TTuple(ts) => ts[i]
    case TArray(e, _) => e
    case TBounded(e, _) => e
    case TCont(_, e) => e
    case TMap(_, k, m) => TPair(k, m)
    case TOptional(e) => e
  }

  /** Whether a value of the type can have `n` components. */
  predicate CanHave(t: Ty, n: nat)
    requires IsList(t)
  {
    match t
    case TPair(_, _) => n == 2
    case TTuple(ts) => n == |ts|
    case TArray(_, k) => n == k
    case TBounded(_, k) => n == k
    case TOptional(_) => n <= 1
    case _ => true
  }

  lemma {:induction false} CopyAt(t: Ty, n: nat, i: nat)
    requires i < n
    ensures Copies(t, n)[i] == t
  {
    if i > 0 {
      CopyAt(t, n - 1, i - 1);
    }
  }

  lemma KidAt(t: Ty, n: nat, i: nat)
    requires IsList(t) && CanHave(t, n) && i < n
    ensures |Kids(t, n)| == n && Kids(t, n)[i] == PartType(t, i)
  {
    match t
    case TPair(a, b) =>
    case TTuple(_) =>
    case TArray(e, k) => CopyAt(e, k, i);
    case TBounded(e, k) => CopyAt(e, k, i);
    case TCont(_, e) => CopyAt(e, n, i);
    case TMap(_, k, m) => CopyAt(TPair(k, m), n, i);
    case TOptional(e) => CopyAt(e, 1, i);
  }

  lemma KidCount(t: Ty, n: nat)
    requires IsList(t)
    ensures |Kids(t, n)| == n <==> CanHave(t, n)
  {
  }

  ghost predicate EachPartTyped(t: Ty, vs: seq<Val>)
    requires IsList(t) && CanHave(t, |vs|)
  {
    forall i :: 0 <= i < |vs| ==> WellTyped(PartType(t, i), vs[i])
  }

  lemma {:induction false} AllTypedAt(ts: seq<Ty>, vs: seq<Val>)
    requires |ts| == |vs|
    ensures AllWellTyped(ts, vs) <==> forall i :: 0 <= i < |ts| ==> WellTyped(ts[i], vs[i])
  {
    hide WellTyped;
    if ts != [] {
      AllTypedAt(ts[1..], vs[1..]);
      if AllWellTyped(ts, vs) {
        forall i | 0 <= i < |ts| ensures WellTyped(ts[i], vs[i]) {
          assert i > 0 ==> ts[i] == ts[1..][i - 1] && vs[i] == vs[1..][i - 1];
        }
      }
      if forall i :: 0 <= i < |ts| ==> WellTyped(ts[i], vs[i]) {
        forall i | 0 <= i < |ts[1..]| ensures WellTyped(ts[1..][i], vs[1..][i]) {
          assert ts[1..][i] == ts[i + 1] && vs[1..][i] == vs[i + 1];
        }
      }
    }
  }

  /** The values of a list type: as many components as it can have, each of its type. */
  lemma ListTypedExactly(t: Ty, v: Val)
    requires IsList(t)
    ensures WellTyped(t, v) <==>
              v.VList? && |v.items| < Pow256(8) && CanHave(t, |v.items|) && EachPartTyped(t, v.items)
  {
    hide Kids, AllWellTyped, Pow256;
    if v.VList? {
      var n := |v.items|;
      KidCount(t, n);
      if CanHave(t, n) {
        forall i | 0 <= i < n ensures Kids(t, n)[i] == PartType(t, i) {
          KidAt(t, n, i);
        }
        AllTypedAt(Kids(t, n), v.items);
      }
    }
  }

  /** The values of the other types. */
  lemma OthersTypedExactly(t: Ty, v: Val)
    ensures t.TInt? ==> (WellTyped(t, v) <==> t.width in {1, 2, 4, 8} && v.VInt? && v.bits < Pow256(t.width))
    ensures t.TBool? ==> (WellTyped(t, v) <==> v.VBool?)
    ensures t.TFloat? ==> (WellTyped(t, v) <==> t.width in {4, 8} && v.VFloat? && |v.xdr| == t.width)
    ensures t.TString? ==> (WellTyped(t, v) <==> v.VString? && |v.chars| < Pow256(8))
    ensures t.TMono? ==> (WellTyped(t, v) <==> v.VMono?)
    ensures t.TVariant? ==>
              (WellTyped(t, v) <==>
               v.VAlt? && v.index < |t.alts| < Pow256(8) && WellTyped(t.alts[v.index], v.content))
  {
    hide Pow256;
    if t.TInt? {
      WidthsAre248(t.width);
    }
  }

  // Offsets

  /** The bytes of the first `i` components. */
  function SizeBefore(w: Backend, t: Ty, vs: seq<Val>, i: nat): nat
    requires IsList(t) && CanHave(t, |vs|) && EachPartTyped(t, vs) && i <= |vs|
  {
    if i == 0 then 0 else SizeBefore(w, t, vs, i - 1) + |Encode(w, PartType(t, i - 1), vs[i - 1])|
  }

  ghost predicate PairwiseTyped(ts: seq<Ty>, vs: seq<Val>) {
    |ts| == |vs| && forall i :: 0 <= i < |ts| ==> WellTyped(ts[i], vs[i])
  }

  function Total(w: Backend, ts: seq<Ty>, vs: seq<Val>, i: nat): nat
    requires PairwiseTyped(ts, vs) && i <= |ts|
  {
    if i == 0 then 0 else Total(w, ts, vs, i - 1) + |Encode(w, ts[i - 1], vs[i - 1])|
  }

  lemma {:induction false} TotalStep(w: Backend, ts: seq<Ty>, vs: seq<Val>, i: nat)
    requires PairwiseTyped(ts, vs) && 0 < i <= |ts|
    ensures PairwiseTyped(ts[1..], vs[1..])
    ensures Total(w, ts, vs, i) == |Encode(w, ts[0], vs[0])| + Total(w, ts[1..], vs[1..], i - 1)
  {
    hide Encode, WellTyped;
    if i > 1 {
      TotalStep(w, ts, vs, i - 1);
      assert ts[1..][i - 2] == ts[i - 1] && vs[1..][i - 2] == vs[i - 1];
    } else {
      assert Total(w, ts[1..], vs[1..], 0) == 0 && Total(w, ts, vs, 0) == 0;
    }
  }

  lemma SliceBehind(a: seq<Byte>, b: seq<Byte>, at: nat, end: nat)
    requires at <= end <= |b|
    ensures (a + b)[|a| + at..|a| + end] == b[at..end]
  {
  }

  lemma {:induction false} AllBytesAt(w: Backend, ts: seq<Ty>, vs: seq<Val>, i: nat)
    requires AllWellTyped(ts, vs) && PairwiseTyped(ts, vs) && i < |ts|
    ensures var at, part := Total(w, ts, vs, i), Encode(w, ts[i], vs[i]);
            && at + |part| <= |EncodeAll(w, ts, vs)| && EncodeAll(w, ts, vs)[at..at + |part|] == part
  {
    hide Encode, WellTyped, Total;
    var part := Encode(w, ts[i], vs[i]);
    if i == 0 {
      NoneBefore(w, ts, vs);
    } else {
      TotalStep(w, ts, vs, i);
      var at := Total(w, ts[1..], vs[1..], i - 1);
      AllBytesAt(w, ts[1..], vs[1..], i - 1);
      assert ts[1..][i - 1] == ts[i] && vs[1..][i - 1] == vs[i];
      SliceBehind(Encode(w, ts[0], vs[0]), EncodeAll(w, ts[1..], vs[1..]), at, at + |part|);
    }
  }

  lemma NoneBefore(w: Backend, ts: seq<Ty>, vs: seq<Val>)
    requires PairwiseTyped(ts, vs)
    ensures Total(w, ts, vs, 0) == 0
  {
    hide Encode, WellTyped;
  }

  lemma {:induction false} AllBytes(w: Backend, ts: seq<Ty>, vs: seq<Val>)
    requires AllWellTyped(ts, vs) && PairwiseTyped(ts, vs)
    ensures |EncodeAll(w, ts, vs)| == Total(w, ts, vs, |ts|)
  {
    hide Encode, WellTyped;
    if ts != [] {
      TotalStep(w, ts, vs, |ts|);
      AllBytes(w, ts[1..], vs[1..]);
    }
  }

  lemma {:induction false} SameTotal(w: Backend, t: Ty, ts: seq<Ty>, vs: seq<Val>, i: nat)
    requires IsList(t) && CanHave(t, |vs|) && EachPartTyped(t, vs) && PairwiseTyped(ts, vs) && i <= |vs|
    requires forall k :: 0 <= k < |ts| ==> ts[k] == PartType(t, k)
    ensures Total(w, ts, vs, i) == SizeBefore(w, t, vs, i)
  {
    hide Encode, WellTyped;
    if i > 0 {
      SameTotal(w, t, ts, vs, i - 1);
    }
  }

  /** What precedes the components: the extent of a bounded array as eight big-endian bytes,
      the number of entries of a container, the flag of an optional, and otherwise nothing. */
  ghost predicate IsHead(w: Backend, t: Ty, n: nat, head: seq<Byte>) {
    match t
    case TBounded(_, _) => |head| == 8 && Spells(Big, head, n)
    case TCont(_, _) => IsCount(w.native, head, n)
    case TMap(_, _, _) => IsCount(w.native, head, n)
    case TOptional(_) => head == [if n == 0 then 0 else 1]
    case _ => head == []
  }

  /** A count as its writer gives it: the byte order in bit 7, the number of value bytes less
      one in the low bits, and then as few bytes as hold it, in that order. */
  ghost predicate IsCount(native: Endian, s: seq<Byte>, n: nat) {
    && |s| >= 2 && s[0] == |s| - 2 + (if native.Big? then 128 else 0)
    && Spells(native, s[1..], n) && (|s| > 2 ==> n >= Pow256(|s| - 2))
  }

  lemma WireIsCount(native: Endian, n: nat)
    requires n < Pow256(8)
    ensures IsCount(native, Wire(native, false, n, 8), n) && |Wire(native, false, n, 8)| <= 9
  {
    hide Spells, Pow256, ByteLength, Wire;
    WireDigits(native, false, n, 8);
    WireIsShort(native, n);
    BitsMakeByte(Wire(native, false, n, 8)[0]);
  }

  lemma WireIsShort(native: Endian, n: nat)
    requires n < Pow256(8)
    ensures |Wire(native, false, n, 8)| <= 9
  {
    ByteLengthIsLeast(n, 8);
  }

  lemma BitsMakeByte(b: Byte)
    ensures b == 128 * (b / 128) + 64 * (b / 64 % 2) + b % 64
  {
  }

  lemma HeadIs(w: Backend, t: Ty, n: nat)
    requires IsList(t) && n < Pow256(8)
    ensures IsHead(w, t, n, HeadBytes(w, t, n))
  {
    hide Spells, IsCount, ToBytes, Wire, Pow256;
    WordSpells(Big, n, 8);
    WireIsCount(w.native, n);
  }

  /** An aggregate is its head and then its components, one behind the other in the order
      in which they are visited, each at the offset that is the size of those before it. */
  lemma ListLayout(w: Backend, t: Ty, v: Val, i: nat) returns (head: seq<Byte>)
    requires IsList(t) && WellTyped(t, v) && i <= |v.items|
    ensures CanHave(t, |v.items|) && EachPartTyped(t, v.items)
    ensures IsHead(w, t, |v.items|, head) && head <= Encode(w, t, v)
    ensures |Encode(w, t, v)| == |head| + SizeBefore(w, t, v.items, |v.items|)
    ensures i < |v.items| ==>
              var at, part := |head| + SizeBefore(w, t, v.items, i), Encode(w, PartType(t, i), v.items[i]);
              at + |part| <= |Encode(w, t, v)| && Encode(w, t, v)[at..at + |part|] == part
  {
    hide Encode, EncodeAll, Kids, HeadBytes, IsHead, AllWellTyped, WellTyped, SizeBefore, Total;
    ListTypedExactly(t, v);
    var vs := v.items;
    var ts := Kids(t, |vs|);
    KidsTyped(t, v);
    ListBytes(w, t, v);
    head := HeadBytes(w, t, |vs|);
    HeadIs(w, t, |vs|);
    AllBytes(w, ts, vs);
    SameTotal(w, t, ts, vs, |vs|);
    if i < |vs| {
      AllBytesAt(w, ts, vs, i);
      SameTotal(w, t, ts, vs, i);
    }
  }

  lemma KidsTyped(t: Ty, v: Val)
    requires IsList(t) && WellTyped(t, v)
    ensures |v.items| < Pow256(8) && AllWellTyped(Kids(t, |v.items|), v.items)
    ensures PairwiseTyped(Kids(t, |v.items|), v.items)
    ensures forall k :: 0 <= k < |Kids(t, |v.items|)| ==> Kids(t, |v.items|)[k] == PartType(t, k)
  {
    hide Kids, AllWellTyped, Pow256;
    ListTypedExactly(t, v);
    KidCount(t, |v.items|);
    forall k | 0 <= k < |v.items| ensures Kids(t, |v.items|)[k] == PartType(t, k) {
      KidAt(t, |v.items|, k);
    }
  }

  /** Positions behind the first `skip` bytes, as positions in all of them. */
  function Moved(at: seq<nat>, skip: nat): (r: seq<nat>)
    ensures |r| == |at|
  {
    seq(|at|, i requires 0 <= i < |at| => at[i] + skip)
  }

  // Scalars, strings and variants

  /** Integers are big endian on every machine: byte `i` is the digit of its place. */
  lemma IntegerBytes(w: Backend, width: nat, v: Val, i: nat)
    requires WellTyped(TInt(width), v) && i < width
    ensures |Encode(w, TInt(width), v)| == width
    ensures Encode(w, TInt(width), v)[i] == v.bits / Pow256(width - 1 - i) % 256
  {
    hide ToBytes, Pow256;
    WordSpells(Big, v.bits, width);
  }

  /** Bools are 1 or 0, floats their XDR bytes, and a monostate is nothing. */
  lemma ScalarBytes(w: Backend, t: Ty, v: Val)
    requires WellTyped(t, v)
    ensures t.TBool? ==> Encode(w, t, v) == [if v.b then 1 else 0]
    ensures t.TFloat? ==> Encode(w, t, v) == v.xdr
    ensures t.TMono? ==> Encode(w, t, v) == []
  {
  }

  /** FileIO writes the length of a string in eight big-endian bytes, the others as they write
      a count; the characters follow. */
  lemma StringBytes(w: Backend, v: Val) returns (head: seq<Byte>)
    requires WellTyped(TString, v)
    ensures Encode(w, TString, v) == head + v.chars
    ensures if w.File? then |head| == 8 && Spells(Big, head, |v.chars|) else IsCount(w.native, head, |v.chars|)
  {
    hide ToBytes, Wire, Pow256, Spells, IsCount;
    head := LengthBytes(w, |v.chars|);
    WordSpells(Big, |v.chars|, 8);
    WireIsCount(w.native, |v.chars|);
  }

  /** A variant is its index in eight big-endian bytes, and its content. */
  lemma VariantBytes(w: Backend, t: Ty, v: Val)
    requires t.TVariant? && WellTyped(t, v)
    ensures |Encode(w, t, v)| >= 8 && Spells(Big, Encode(w, t, v)[..8], v.index)
    ensures Encode(w, t, v)[8..] == Encode(w, t.alts[v.index], v.content)
  {
    hide ToBytes, Pow256, Spells;
    WordSpells(Big, v.index, 8);
    assert Encode(w, t, v)[..8] == ToBytes(Big, v.index, 8);
  }
}
