/** Reading what was written gives the value back, whatever follows it in the stream. */
module CodecRoundTrip {
  import opened Bytes
  import opened EncodedInteger
  import opened CodecTypes
  import opened Codec

  const TWO_TO_31: int := 0x8000_0000

  /** A component of `size` bytes comes back with a positive count, which is what is tested;
      the counts of members of a tuple have passed through an int by then. */
  predicate Counts(narrow: bool, size: nat) {
    0 < size && (narrow ==> size < TWO_TO_31)
  }

  /** Every component's count is its size where the byte-count backends test it. What this
      rules out are empty arrays and tuples, and monostates, as components of anything but
      a variant, and members of tuples that take 2^31 bytes or more. */
  ghost predicate Solid(w: Backend, t: Ty, v: Val)
    requires WellTyped(t, v)
    decreases v, 0
  {
    if IsList(t) then AllSolid(w, t.TTuple?, Kids(t, |v.items|), v.items)
    else t.TVariant? ==> Solid(w, t.alts[v.index], v.content)
  }

  ghost predicate AllSolid(w: Backend, narrow: bool, ts: seq<Ty>, vs: seq<Val>)
    requires AllWellTyped(ts, vs)
    decreases vs, 1
  {
    ts == []
    || (Counts(narrow, |Encode(w, ts[0], vs[0])|) && Solid(w, ts[0], vs[0]) && AllSolid(w, narrow, ts[1..], vs[1..]))
  }

  /** What a reader leaves in `target` once it has read `v`: the value, except that every
      backend but FileIO leaves a target optional alone when the value has none. */
  function Left(be: Backend, t: Ty, target: Obj, v: Val): Obj
    requires WellTyped(t, v)
    decreases v, 0
  {
    if IsList(t) then
      var ts := Kids(t, |v.items|);
      if t.TOptional? && v.items == [] then (if be.File? then OList([]) else target)
      else Gather(t, LeftAll(be, ts, KidTargets(t, target, ts), v.items))
    else if t.TVariant? then
      OAlt(v.index, Left(be, t.alts[v.index], Default(t.alts[v.index]), v.content))
    else AbsLeaf(t, v)
  }

  function LeftAll(be: Backend, ts: seq<Ty>, targets: seq<Obj>, vs: seq<Val>): (objs: seq<Obj>)
    requires AllWellTyped(ts, vs) && |targets| == |ts|
    ensures |objs| == |ts|
    decreases vs, 1
  {
    if ts == [] then [] else [Left(be, ts[0], targets[0], vs[0])] + LeftAll(be, ts[1..], targets[1..], vs[1..])
  }

  /** A successful reading of `size` bytes that leaves `obj`. */
  ghost predicate Succeeds(be: Backend, r: Reading, obj: Obj, size: nat) {
    && r.used == size && r.obj == obj
    && if be.File? then r.rc > 0 else r.rc == size
  }

  ghost predicate AllSucceed(be: Backend, m: Readings, objs: seq<Obj>, size: nat) {
    && m.n == |objs| && m.objs == objs && m.used == size
    && if be.File? then m.rc >= m.n else m.rc == size
  }

  lemma Split<X>(a: seq<X>, b: seq<X>, c: seq<X>)
    ensures a + b + c == a + (b + c)
    ensures (a + b + c)[|a|..] == b + c
  {
  }

  lemma LeafRoundTrip(be: Backend, w: Backend, t: Ty, v: Val, target: Obj, more: seq<Byte>)
    requires WellTyped(t, v) && !IsList(t) && !t.TVariant? && be.File? == w.File?
    ensures var enc := EncodeLeaf(w, t, v);
            Succeeds(be, ReadLeaf(be, t, target, enc + more), AbsLeaf(t, v), |enc|)
  {
    var enc := EncodeLeaf(w, t, v);
    match t
    case TInt(width) =>
      BytesRoundTrip(Big, v.bits, width);
      assert (enc + more)[..width] == enc;
    case TFloat(width) =>
      assert (enc + more)[..width] == enc;
    case TString => StringRoundTrip(be, w, v.chars, target, more);
    case _ =>
  }

  lemma WordRoundTrip(n: nat, more: seq<Byte>)
    requires n < Pow256(8)
    ensures ReadWord(ToBytes(Big, n, 8) + more) == Head(n, 8)
  {
    BytesRoundTrip(Big, n, 8);
    assert (ToBytes(Big, n, 8) + more)[..8] == ToBytes(Big, n, 8);
  }

  lemma CountRoundTrip(native: Endian, n: nat, more: seq<Byte>)
    requires n < Pow256(8)
    ensures var enc := Wire(native, false, n, 8); ReadCount(enc + more) == Head(n, |enc|)
  {
    UnwireOfWire(native, false, n, 8, more);
  }

  lemma StringRoundTrip(be: Backend, w: Backend, chars: seq<Byte>, target: Obj, more: seq<Byte>)
    requires |chars| < Pow256(8) && be.File? == w.File?
    ensures var enc := LengthBytes(w, |chars|) + chars;
            Succeeds(be, ReadString(be, target, enc + more), OString(chars), |enc|)
  {
    var head := LengthBytes(w, |chars|);
    var input := head + chars + more;
    assert input == head + (chars + more);
    if be.File? {
      WordRoundTrip(|chars|, chars + more);
    } else {
      CountRoundTrip(w.native, |chars|, chars + more);
    }
    assert input[|head|..|head| + |chars|] == chars;
  }

  lemma HeadRoundTrip(w: Backend, t: Ty, n: nat, more: seq<Byte>)
    requires IsList(t) && n < Pow256(8)
    requires (t.TBounded? ==> n == t.n) && (t.TOptional? ==> n <= 1)
    ensures var enc := HeadBytes(w, t, n);
            var h := ReadHead(t, enc + more);
            h.Head? && h.used == |enc| && Kids(t, h.n) == Kids(t, n) && (t.TOptional? ==> h.n == n)
  {
    if t.TBounded? {
      WordRoundTrip(n, more);
    } else if t.TCont? || t.TMap? {
      CountRoundTrip(w.native, n, more);
    }
  }

  /** A value's own number of components is the one its head gives. */
  lemma ItemsFit(t: Ty, v: Val)
    requires IsList(t) && WellTyped(t, v)
    ensures |Kids(t, |v.items|)| == |v.items|
    ensures t.TBounded? ==> |v.items| == t.n
    ensures t.TOptional? ==> |v.items| <= 1
  {
  }

  lemma ListBytes(w: Backend, t: Ty, v: Val)
    requires IsList(t) && WellTyped(t, v)
    ensures Encode(w, t, v) == HeadBytes(w, t, |v.items|) + EncodeAll(w, Kids(t, |v.items|), v.items)
  {
  }

  lemma VariantSizeIs(w: Backend, t: Ty, v: Val)
    requires t.TVariant? && WellTyped(t, v)
    ensures |Encode(w, t, v)| == 8 + |Encode(w, t.alts[v.index], v.content)|
  {
  }

  lemma ReadVariantStep(be: Backend, t: Ty, target: Obj, bytes: seq<Byte>)
    requires t.TVariant? && ReadWord(bytes).Head? && ReadWord(bytes).n < |t.alts|
    ensures var n := ReadWord(bytes).n;
            var r := ReadFrom(be, t.alts[n], Default(t.alts[n]), bytes[8..]);
            ReadFrom(be, t, target, bytes) == Reading(VariantCount(be, r.rc), OAlt(n, r.obj), 8 + r.used)
  {
  }

  /** Reading an encoding, whatever follows it, succeeds, consumes it exactly, returns its
      length (or, from FileIO, a positive number) and leaves the value. */
  lemma {:induction false} RoundTrip(be: Backend, w: Backend, t: Ty, v: Val, target: Obj, more: seq<Byte>)
    requires WellTyped(t, v) && be.File? == w.File?
    requires be.File? || Solid(w, t, v)
    ensures Succeeds(be, ReadFrom(be, t, target, Encode(w, t, v) + more), Left(be, t, target, v), |Encode(w, t, v)|)
    decreases v, 0
  {
    hide ReadAll, EncodeAll, LeftAll, ReadLeaf, AbsLeaf, EncodeLeaf;
    if IsList(t) {
      ListRoundTrip(be, w, t, v, target, more);
    } else if t.TVariant? {
      var alt := t.alts[v.index];
      var index, content := ToBytes(Big, v.index, 8), Encode(w, alt, v.content);
      Split(index, content, more);
      WordRoundTrip(v.index, content + more);
      RoundTrip(be, w, alt, v.content, Default(alt), more);
      ReadVariantStep(be, t, target, index + content + more);
    } else {
      LeafRoundTrip(be, w, t, v, target, more);
    }
  }

  /** Narrowing never makes a count larger. */
  lemma {:induction false} NarrowShrinks(rc: int)
    requires rc >= -1
    ensures Narrow(rc) <= rc
    ensures Narrow(rc) == rc <==> rc < TWO_TO_31
  {
    if rc >= TWO_TO_31 {
      NarrowRange(rc);
    }
  }

  /** A count that passes through an int keeps its low 32 bits, read as a signed number. */
  lemma {:induction false} NarrowRange(rc: int)
    ensures -TWO_TO_31 <= Narrow(rc) < TWO_TO_31 && (rc - Narrow(rc)) % 0x1_0000_0000 == 0
    decreases if rc >= TWO_TO_31 then rc - TWO_TO_31 + 1 else if rc < -TWO_TO_31 then -rc else 0
  {
    if rc < -TWO_TO_31 {
      NarrowRange(rc + 0x1_0000_0000);
    } else if rc >= TWO_TO_31 {
      NarrowRange(rc - 0x1_0000_0000);
    }
  }

  /** Counts that fit are kept as they are, others come out smaller. */
  lemma KeptShrinks(narrow: bool, rc: int)
    requires rc >= -1
    ensures Kept(narrow, rc) <= rc
    ensures Kept(narrow, rc) == rc <==> !narrow || rc < TWO_TO_31
  {
    NarrowShrinks(rc);
  }

  /** One component read; the rest follows. */
  lemma ReadAllStep(be: Backend, narrow: bool, ts: seq<Ty>, targets: seq<Obj>, bytes: seq<Byte>)
    requires ts != [] && |targets| == |ts| && Kept(narrow, ReadFrom(be, ts[0], targets[0], bytes).rc) > 0
    ensures var r := ReadFrom(be, ts[0], targets[0], bytes);
            var m := ReadAll(be, narrow, ts[1..], targets[1..], bytes[r.used..]);
            ReadAll(be, narrow, ts, targets, bytes)
            == Readings(1 + m.n, Kept(narrow, r.rc) + m.rc, [r.obj] + m.objs, r.used + m.used)
  {
    hide Kept, ReadFrom;
  }

  /** One component that fails; the others are not tried. */
  lemma ReadAllStops(be: Backend, narrow: bool, ts: seq<Ty>, targets: seq<Obj>, bytes: seq<Byte>)
    requires ts != [] && |targets| == |ts| && Kept(narrow, ReadFrom(be, ts[0], targets[0], bytes).rc) <= 0
    ensures var r := ReadFrom(be, ts[0], targets[0], bytes);
            ReadAll(be, narrow, ts, targets, bytes) == Readings(0, 0, [r.obj] + targets[1..], r.used)
  {
    hide Kept, ReadFrom;
  }

  lemma NoneToRead(be: Backend, narrow: bool, ts: seq<Ty>, targets: seq<Obj>, bytes: seq<Byte>)
    requires ts == [] && |targets| == |ts|
    ensures ReadAll(be, narrow, ts, targets, bytes) == Readings(0, 0, [], 0)
  {
  }

  lemma ReadListStep(be: Backend, t: Ty, target: Obj, bytes: seq<Byte>)
    requires IsList(t) && ReadHead(t, bytes).Head?
    ensures var h := ReadHead(t, bytes);
            var ts := Kids(t, h.n);
            ReadFrom(be, t, target, bytes)
            == FinishRead(be, t, target, h, |ts|,
               ReadAll(be, Narrows(t, be), ts, KidTargets(t, target, ts), bytes[h.used..]))
  {
  }

  /** All components read: what the whole reading then is. */
  lemma ListSucceeds(be: Backend, t: Ty, target: Obj, bytes: seq<Byte>, objs: seq<Obj>, size: nat)
    requires IsList(t) && ReadHead(t, bytes).Head?
    requires var h := ReadHead(t, bytes);
             var ts := Kids(t, h.n);
             && |objs| == |ts| && (t.TOptional? ==> h.n == |ts|)
             && AllSucceed(be, ReadAll(be, Narrows(t, be), ts, KidTargets(t, target, ts), bytes[h.used..]), objs, size)
    ensures Succeeds(be, ReadFrom(be, t, target, bytes),
                     if t.TOptional? && objs == [] then (if be.File? then OList([]) else target) else Gather(t, objs),
                     ReadHead(t, bytes).used + size)
  {
    ReadListStep(be, t, target, bytes);
    assert objs[..|objs|] == objs;
  }

  lemma {:induction false} ListRoundTrip(be: Backend, w: Backend, t: Ty, v: Val, target: Obj, more: seq<Byte>)
    requires IsList(t) && WellTyped(t, v) && be.File? == w.File?
    requires be.File? || Solid(w, t, v)
    ensures Succeeds(be, ReadFrom(be, t, target, Encode(w, t, v) + more), Left(be, t, target, v), |Encode(w, t, v)|)
    decreases v.items, 2
  {
    hide ReadFrom, ReadAll, ReadHead, KidTargets, HeadBytes, Gather, Kids, Encode, EncodeAll, LeftAll, AllSolid;
    var ts := Kids(t, |v.items|);
    var head, body := HeadBytes(w, t, |v.items|), EncodeAll(w, ts, v.items);
    var targets := KidTargets(t, target, ts);
    ListBytes(w, t, v);
    Split(head, body, more);
    ItemsFit(t, v);
    HeadRoundTrip(w, t, |v.items|, body + more);
    AllRoundTrip(be, w, Narrows(t, be), ts, v.items, targets, more);
    ListSucceeds(be, t, target, head + body + more, LeftAll(be, ts, targets, v.items), |body|);
  }

  lemma {:induction false} AllRoundTrip(be: Backend, w: Backend, narrow: bool, ts: seq<Ty>, vs: seq<Val>,
          targets: seq<Obj>, more: seq<Byte>)
    requires AllWellTyped(ts, vs) && |targets| == |ts| && be.File? == w.File? && !(be.File? && narrow)
    requires be.File? || AllSolid(w, narrow, ts, vs)
    ensures AllSucceed(be, ReadAll(be, narrow, ts, targets, EncodeAll(w, ts, vs) + more),
                       LeftAll(be, ts, targets, vs), |EncodeAll(w, ts, vs)|)
    decreases vs, 1
  {
    hide ReadFrom, ReadAll, Kept, Solid, Left, Encode;
    if ts == [] {
      NoneToRead(be, narrow, ts, targets, EncodeAll(w, ts, vs) + more);
    } else {
      var first, rest := Encode(w, ts[0], vs[0]), EncodeAll(w, ts[1..], vs[1..]);
      Split(first, rest, more);
      RoundTrip(be, w, ts[0], vs[0], targets[0], rest + more);
      KeptShrinks(narrow, ReadFrom(be, ts[0], targets[0], first + rest + more).rc);
      AllRoundTrip(be, w, narrow, ts[1..], vs[1..], targets[1..], more);
      ReadAllStep(be, narrow, ts, targets, first + rest + more);
    }
  }

  lemma SolidTakesBytes(w: Backend, narrow: bool, ts: seq<Ty>, vs: seq<Val>)
    requires AllWellTyped(ts, vs) && AllSolid(w, narrow, ts, vs) && ts != []
    ensures |EncodeAll(w, ts, vs)| > 0
  {
  }
}
