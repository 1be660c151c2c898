/** Encodings are unambiguous: wherever one ends, it ends for every reader. */
module CodecPrefixes {
  import opened Bytes
  import opened EncodedInteger
  import opened CodecTypes
  import opened Codec
  import opened CodecRoundTrip

  /** Two ways of cutting one sequence at the same place are the same. */
  lemma SameCut<X>(a: seq<X>, x: seq<X>, b: seq<X>, y: seq<X>)
    requires a + x == b + y && |a| == |b|
    ensures a == b && x == y
  {
    assert a == (a + x)[..|a|] && b == (b + y)[..|b|];
    assert x == (a + x)[|a|..] && y == (b + y)[|b|..];
  }

  lemma WordsSplit(n: nat, m: nat, width: nat, x: seq<Byte>, y: seq<Byte>)
    requires n < Pow256(width) && m < Pow256(width) && ToBytes(Big, n, width) + x == ToBytes(Big, m, width) + y
    ensures n == m && x == y
  {
    SameCut(ToBytes(Big, n, width), x, ToBytes(Big, m, width), y);
    BytesRoundTrip(Big, n, width);
    BytesRoundTrip(Big, m, width);
  }

  lemma CountsSplit(native: Endian, n: nat, m: nat, x: seq<Byte>, y: seq<Byte>)
    requires n < Pow256(8) && m < Pow256(8) && Wire(native, false, n, 8) + x == Wire(native, false, m, 8) + y
    ensures n == m && x == y
  {
    hide Wire;
    CountRoundTrip(native, n, x);
    CountRoundTrip(native, m, y);
    SameCut(Wire(native, false, n, 8), x, Wire(native, false, m, 8), y);
  }

  lemma StringsSplit(w: Backend, a: seq<Byte>, b: seq<Byte>, x: seq<Byte>, y: seq<Byte>)
    requires |a| < Pow256(8) && |b| < Pow256(8)
    requires LengthBytes(w, |a|) + a + x == LengthBytes(w, |b|) + b + y
    ensures a == b && x == y
  {
    hide Wire, ToBytes;
    var head, head' := LengthBytes(w, |a|), LengthBytes(w, |b|);
    assert head + a + x == head + (a + x) && head' + b + y == head' + (b + y);
    if w.File? {
      WordsSplit(|a|, |b|, 8, a + x, b + y);
    } else {
      CountsSplit(w.native, |a|, |b|, a + x, b + y);
    }
    SameCut(a, x, b, y);
  }

  lemma LeavesSplit(w: Backend, t: Ty, v: Val, u: Val, x: seq<Byte>, y: seq<Byte>)
    requires WellTyped(t, v) && WellTyped(t, u) && !IsList(t) && !t.TVariant?
    requires EncodeLeaf(w, t, v) + x == EncodeLeaf(w, t, u) + y
    ensures v == u && x == y
  {
    hide ToBytes, Wire, LengthBytes;
    if t.TInt? {
      WordsSplit(v.bits, u.bits, t.width, x, y);
    } else if t.TString? {
      StringsSplit(w, v.chars, u.chars, x, y);
    } else {
      SameCut(EncodeLeaf(w, t, v), x, EncodeLeaf(w, t, u), y);
    }
  }

  /** The head of a list tells how many components there are, where the type does not. */
  lemma HeadsSplit(w: Backend, t: Ty, n: nat, m: nat, x: seq<Byte>, y: seq<Byte>)
    requires IsList(t) && n < Pow256(8) && m < Pow256(8)
    requires (t.TBounded? ==> n == m == t.n) && (t.TOptional? ==> n <= 1 && m <= 1)
    requires HeadBytes(w, t, n) + x == HeadBytes(w, t, m) + y
    ensures Kids(t, n) == Kids(t, m) && x == y
  {
    hide ToBytes, Wire;
    if t.TCont? || t.TMap? {
      CountsSplit(w.native, n, m, x, y);
    } else {
      SameCut(HeadBytes(w, t, n), x, HeadBytes(w, t, m), y);
    }
  }

  /** An encoding followed by anything determines the value, and where its encoding ends. */
  lemma {:induction false} EncodingsSplit(w: Backend, t: Ty, v: Val, u: Val, x: seq<Byte>, y: seq<Byte>)
    requires WellTyped(t, v) && WellTyped(t, u)
    requires Encode(w, t, v) + x == Encode(w, t, u) + y
    ensures v == u && x == y
    decreases v, 0
  {
    if IsList(t) {
      ListsSplit(w, t, v, u, x, y);
    } else if t.TVariant? {
      var index, index' := ToBytes(Big, v.index, 8), ToBytes(Big, u.index, 8);
      var content, content' := Encode(w, t.alts[v.index], v.content), Encode(w, t.alts[u.index], u.content);
      Split(index, content, x);
      Split(index', content', y);
      WordsSplit(v.index, u.index, 8, content + x, content' + y);
      EncodingsSplit(w, t.alts[v.index], v.content, u.content, x, y);
    } else {
      LeavesSplit(w, t, v, u, x, y);
    }
  }

  lemma {:induction false} ListsSplit(w: Backend, t: Ty, v: Val, u: Val, x: seq<Byte>, y: seq<Byte>)
    requires IsList(t) && WellTyped(t, v) && WellTyped(t, u)
    requires Encode(w, t, v) + x == Encode(w, t, u) + y
    ensures v == u && x == y
    decreases v.items, 2
  {
    hide Encode, HeadBytes, EncodeAll, Kids;
    ListBytes(w, t, v);
    ListBytes(w, t, u);
    var vs, us := v.items, u.items;
    var ts, ts' := Kids(t, |vs|), Kids(t, |us|);
    ItemsFit(t, v);
    ItemsFit(t, u);
    Split(HeadBytes(w, t, |vs|), EncodeAll(w, ts, vs), x);
    Split(HeadBytes(w, t, |us|), EncodeAll(w, ts', us), y);
    HeadsSplit(w, t, |vs|, |us|, EncodeAll(w, ts, vs) + x, EncodeAll(w, ts', us) + y);
    AllSplit(w, ts, vs, us, x, y);
  }

  lemma {:induction false} AllSplit(w: Backend, ts: seq<Ty>, vs: seq<Val>, us: seq<Val>, x: seq<Byte>, y: seq<Byte>)
    requires AllWellTyped(ts, vs) && AllWellTyped(ts, us)
    requires EncodeAll(w, ts, vs) + x == EncodeAll(w, ts, us) + y
    ensures vs == us && x == y
    decreases vs, 1
  {
    if ts == [] {
      assert [] + x == x && [] + y == y;
    } else {
      var rest, rest' := EncodeAll(w, ts[1..], vs[1..]), EncodeAll(w, ts[1..], us[1..]);
      Split(Encode(w, ts[0], vs[0]), rest, x);
      Split(Encode(w, ts[0], us[0]), rest', y);
      EncodingsSplit(w, ts[0], vs[0], us[0], rest + x, rest' + y);
      AllSplit(w, ts[1..], vs[1..], us[1..], x, y);
      assert vs == [vs[0]] + vs[1..] && us == [us[0]] + us[1..];
    }
  }

  /** No encoding of a type is a proper prefix of another, and equal encodings are of equal
      values, for every value and every backend. */
  lemma PrefixFree(w: Backend, t: Ty, v: Val, u: Val, more: seq<Byte>)
    requires WellTyped(t, v) && WellTyped(t, u) && Encode(w, t, u) == Encode(w, t, v) + more
    ensures more == [] && u == v && Abs(t, u) == Abs(t, v)
  {
    assert Encode(w, t, u) + [] == Encode(w, t, u);
    EncodingsSplit(w, t, v, u, more, []);
  }
}
