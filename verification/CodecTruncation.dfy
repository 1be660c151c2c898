/** What every backend makes of an encoding that breaks off. */
module CodecTruncation {
  import opened Bytes
  import opened EncodedInteger
  import opened CodecTypes
  import opened Codec
  import opened CodecRoundTrip

  /** Scalars of one byte, which DescriptorIO reads as a count of 0 at the end. */
  predicate OneByte(t: Ty) {
    t.TBool? || (t.TInt? && t.width == 1)
  }

  /** Whether the backend reports every truncation of `v`. A scalar that comes back with
      the count of the bytes that were there does not, nor does anything that ends in
      one; DescriptorIO takes a variant's content of no bytes for success, and GZIO and
      BZ2IO report no failure of a variant's content at all. */
  ghost predicate Telling(be: Backend, w: Backend, t: Ty, v: Val)
    requires WellTyped(t, v)
    decreases v, 0
  {
    be.File? || match t
    case TInt(width) => be.Descriptor? || width == 1 || width == 8
    case TBool => true
    case TFloat(_) => be.Bz2?
    case TString => true
    case TMono => true
    case TVariant(ts) =>
      |Encode(w, t.alts[v.index], v.content)| == 0
      || (be.Descriptor? && Telling(be, w, t.alts[v.index], v.content) && !OneByte(t.alts[v.index]))
    case _ => v.items == [] || LastTelling(be, w, Kids(t, |v.items|), v.items)
  }

  ghost predicate LastTelling(be: Backend, w: Backend, ts: seq<Ty>, vs: seq<Val>)
    requires AllWellTyped(ts, vs)
    decreases vs, 1
  {
    ts != [] && if |ts| == 1 then Telling(be, w, ts[0], vs[0]) else LastTelling(be, w, ts[1..], vs[1..])
  }

  /** The outcome of reading the first `k` bytes of an encoding of `size` bytes. */
  ghost predicate CutShort(be: Backend, t: Ty, r: Reading, k: nat, size: nat, telling: bool) {
    && r.used == k
    && (telling ==> r.rc <= 0 && (r.rc == Fail(be) || OneByte(t)))
    && (!telling && k == size - 1 ==> r.rc > 0)
  }

  ghost predicate AllCutShort(m: Readings, n: nat, k: nat, size: nat, telling: bool) {
    && m.used == k && m.n <= n && m.rc >= m.n
    && (telling ==> m.n < n)
    && (!telling && k == size - 1 ==> m.n == n)
  }

  // Counts never exceed what was consumed

  ghost predicate ReadInBounds(r: Reading) {
    -1 <= r.rc <= r.used
  }

  lemma LeafCountBound(be: Backend, t: Ty, target: Obj, bytes: seq<Byte>)
    requires !be.File? && !IsList(t) && !t.TVariant?
    ensures ReadInBounds(ReadLeaf(be, t, target, bytes))
  {
  }

  lemma FinishCountBound(be: Backend, t: Ty, target: Obj, h: Head, kids: nat, m: Readings)
    requires !be.File? && h.Head? && m.n <= |m.objs| && 0 <= m.rc <= m.used
    ensures ReadInBounds(FinishRead(be, t, target, h, kids, m))
  {
  }

  lemma {:induction false} CountBound(be: Backend, t: Ty, target: Obj, bytes: seq<Byte>)
    requires !be.File?
    ensures ReadInBounds(ReadFrom(be, t, target, bytes))
    decreases Height(t), 0
  {
    hide ReadAll, KidTargets, Kids, ReadLeaf, FinishRead, Gather;
    if IsList(t) {
      var h := ReadHead(t, bytes);
      if h.Head? {
        var ts := Kids(t, h.n);
        var targets := KidTargets(t, target, ts);
        KidsHeight(t, h.n);
        AllCountBound(be, Narrows(t, be), ts, targets, bytes[h.used..]);
        FinishCountBound(be, t, target, h, |ts|, ReadAll(be, Narrows(t, be), ts, targets, bytes[h.used..]));
        ReadListStep(be, t, target, bytes);
      }
    } else if t.TVariant? {
      var h := ReadWord(bytes);
      if h.Head? && h.n < |t.alts| {
        AltHeight(t.alts, h.n);
        CountBound(be, t.alts[h.n], Default(t.alts[h.n]), bytes[8..]);
        ReadVariantStep(be, t, target, bytes);
      }
    } else {
      LeafCountBound(be, t, target, bytes);
    }
  }

  lemma {:induction false} AllCountBound(be: Backend, narrow: bool, ts: seq<Ty>, targets: seq<Obj>, bytes: seq<Byte>)
    requires !be.File? && |targets| == |ts|
    ensures var m := ReadAll(be, narrow, ts, targets, bytes); 0 <= m.rc <= m.used
    decreases HeightAll(ts), 1, |ts|
  {
    if ts != [] {
      var r := ReadFrom(be, ts[0], targets[0], bytes);
      CountBound(be, ts[0], targets[0], bytes);
      KeptShrinks(narrow, r.rc);
      if Kept(narrow, r.rc) > 0 {
        AllCountBound(be, narrow, ts[1..], targets[1..], bytes[r.used..]);
      }
    }
  }

  // Nothing at all

  /** Reading from an exhausted stream never looks like success. */
  lemma {:induction false} NothingThere(be: Backend, w: Backend, t: Ty, v: Val, target: Obj)
    requires WellTyped(t, v) && be.File? == w.File? && |Encode(w, t, v)| > 0
    requires be.File? || Solid(w, t, v)
    ensures ReadFrom(be, t, target, []).rc <= 0
    decreases v, 0
  {
    hide ReadFrom, ReadAll, KidTargets, Kids, FinishRead;
    if IsList(t) && ReadHead(t, []).Head? {
      HeadFromNothing(t, v);
      var ts := Kids(t, |v.items|);
      ListBytes(w, t, v);
      NothingForAll(be, w, Narrows(t, be), ts, v.items, KidTargets(t, target, ts));
      ListFromNothing(be, t, target);
    } else {
      OthersFromNothing(be, w, t, v, target);
    }
  }

  /** Only what has no head of its own can start from nothing. */
  lemma HeadFromNothing(t: Ty, v: Val)
    requires IsList(t) && WellTyped(t, v) && ReadHead(t, []).Head?
    ensures t.TPair? || t.TTuple? || t.TArray?
    ensures Kids(t, ReadHead(t, []).n) == Kids(t, |v.items|) && forall w :: HeadBytes(w, t, |v.items|) == []
  {
  }

  lemma ListFromNothing(be: Backend, t: Ty, target: Obj)
    requires IsList(t) && ReadHead(t, []).Head?
    requires var ts := Kids(t, ReadHead(t, []).n);
             ReadAll(be, Narrows(t, be), ts, KidTargets(t, target, ts), []).n < |ts|
    ensures ReadFrom(be, t, target, []).rc <= 0
  {
    hide ReadFrom, ReadAll, KidTargets, Kids, Gather;
    ReadListStep(be, t, target, []);
  }

  lemma OthersFromNothing(be: Backend, w: Backend, t: Ty, v: Val, target: Obj)
    requires WellTyped(t, v) && be.File? == w.File? && |Encode(w, t, v)| > 0
    requires !IsList(t) || ReadHead(t, []).NoHead?
    ensures ReadFrom(be, t, target, []).rc <= 0
  {
    hide ReadAll, Gather, Default, KidTargets, Kids, FinishRead;
  }

  lemma {:induction false} NothingForAll(be: Backend, w: Backend, narrow: bool, ts: seq<Ty>, vs: seq<Val>,
          targets: seq<Obj>)
    requires AllWellTyped(ts, vs) && be.File? == w.File? && |EncodeAll(w, ts, vs)| > 0 && |targets| == |ts|
    requires be.File? || AllSolid(w, narrow, ts, vs)
    requires !(be.File? && narrow)
    ensures ReadAll(be, narrow, ts, targets, []).n < |ts|
    ensures !be.File? ==> ReadAll(be, narrow, ts, targets, []).n == 0
    decreases vs, 1
  {
    if |Encode(w, ts[0], vs[0])| > 0 {
      NothingThere(be, w, ts[0], vs[0], targets[0]);
      if narrow {
        CountBound(be, ts[0], targets[0], []);
        KeptShrinks(narrow, ReadFrom(be, ts[0], targets[0], []).rc);
      }
    } else {
      var r := ReadFrom(be, ts[0], targets[0], []);
      NothingForAll(be, w, narrow, ts[1..], vs[1..], targets[1..]);
    }
  }

  // An encoding that breaks off

  lemma CutWithin<X>(a: seq<X>, b: seq<X>, k: nat)
    requires k <= |a|
    ensures (a + b)[..k] == a[..k]
  {
  }

  lemma CutAfter<X>(a: seq<X>, b: seq<X>, k: nat)
    requires |a| <= k <= |a + b|
    ensures (a + b)[..k] == a + b[..k - |a|]
  {
  }

  lemma CountTruncated(native: Endian, n: nat, k: nat)
    requires n < Pow256(8) && k < |Wire(native, false, n, 8)|
    ensures ReadCount(Wire(native, false, n, 8)[..k]) == NoHead(k)
  {
    UnwireOfTruncated(native, false, n, 8, k);
  }

  lemma StringTruncated(be: Backend, w: Backend, chars: seq<Byte>, target: Obj, k: nat)
    requires |chars| < Pow256(8) && be.File? == w.File? && k < |LengthBytes(w, |chars|) + chars|
    ensures var r := ReadString(be, target, (LengthBytes(w, |chars|) + chars)[..k]); r.rc == Fail(be) && r.used == k
  {
    hide Wire, Unwire, ToBytes, FromBytes, Zeros;
    var head := LengthBytes(w, |chars|);
    if k < |head| {
      assert (head + chars)[..k] == head[..k];
      if !be.File? {
        CountTruncated(w.native, |chars|, k);
      }
    } else {
      var some := chars[..k - |head|];
      assert (head + chars)[..k] == head + some;
      if be.File? {
        WordRoundTrip(|chars|, some);
      } else {
        CountRoundTrip(w.native, |chars|, some);
      }
    }
  }

  lemma LeafTruncated(be: Backend, w: Backend, t: Ty, v: Val, target: Obj, k: nat)
    requires WellTyped(t, v) && !IsList(t) && !t.TVariant? && be.File? == w.File?
    requires k < |EncodeLeaf(w, t, v)|
    ensures var enc := EncodeLeaf(w, t, v);
            CutShort(be, t, ReadLeaf(be, t, target, enc[..k]), k, |enc|, Telling(be, w, t, v))
  {
    if t.TString? {
      StringTruncated(be, w, v.chars, target, k);
    }
  }

  lemma HeadTruncated(w: Backend, t: Ty, n: nat, k: nat)
    requires n < Pow256(8) && k < |HeadBytes(w, t, n)|
    ensures ReadHead(t, HeadBytes(w, t, n)[..k]) == NoHead(k)
  {
    if t.TCont? || t.TMap? {
      CountTruncated(w.native, n, k);
    }
  }

  /** Reading the first `k` bytes of an encoding consumes them all. It reports failure if
      the backend is telling about that value; if it is not, there is a truncation, the
      one by a single byte, that it takes for success. */
  lemma {:induction false} Truncated(be: Backend, w: Backend, t: Ty, v: Val, target: Obj, k: nat)
    requires WellTyped(t, v) && be.File? == w.File?
    requires be.File? || Solid(w, t, v)
    requires k < |Encode(w, t, v)|
    ensures CutShort(be, t, ReadFrom(be, t, target, Encode(w, t, v)[..k]), k, |Encode(w, t, v)|, Telling(be, w, t, v))
    decreases v, 0
  {
    if IsList(t) {
      ListTruncated(be, w, t, v, target, k);
    } else if t.TVariant? {
      VariantTruncated(be, w, t, v, target, k);
    } else {
      LeafTruncated(be, w, t, v, target, k);
    }
  }

  lemma {:induction false} VariantTruncated(be: Backend, w: Backend, t: Ty, v: Val, target: Obj, k: nat)
    requires t.TVariant? && WellTyped(t, v) && be.File? == w.File?
    requires be.File? || Solid(w, t, v)
    requires k < |Encode(w, t, v)|
    ensures CutShort(be, t, ReadFrom(be, t, target, Encode(w, t, v)[..k]), k, |Encode(w, t, v)|, Telling(be, w, t, v))
    decreases v.content, 2
  {
    hide ReadFrom, Telling, EncodeAll, AllSolid, Default;
    var alt := t.alts[v.index];
    var index, content := ToBytes(Big, v.index, 8), Encode(w, alt, v.content);
    assert Encode(w, t, v) == index + content;
    if k >= 8 {
      var some := content[..k - 8];
      assert Encode(w, t, v)[..k] == index + some by { CutAfter(index, content, k); }
      Truncated(be, w, alt, v.content, Default(alt), k - 8);
      ContentCutShort(be, w, t, v, target, k - 8);
    } else {
      IndexCutShort(be, w, t, v, target, Encode(w, t, v)[..k]);
    }
  }

  lemma IndexCutShort(be: Backend, w: Backend, t: Ty, v: Val, target: Obj, bytes: seq<Byte>)
    requires t.TVariant? && WellTyped(t, v) && |bytes| < 8
    ensures CutShort(be, t, ReadFrom(be, t, target, bytes), |bytes|, |Encode(w, t, v)|, Telling(be, w, t, v))
  {
  }

  lemma OneByteAtEnd(be: Backend, w: Backend, t: Ty, v: Val, target: Obj)
    requires (be.Descriptor? || be.File?) && OneByte(t) && WellTyped(t, v)
    ensures ReadFrom(be, t, target, []).rc == 0 && |Encode(w, t, v)| == 1
  {
  }

  lemma ContentCutShort(be: Backend, w: Backend, t: Ty, v: Val, target: Obj, j: nat)
    requires t.TVariant? && WellTyped(t, v) && j < |Encode(w, t.alts[v.index], v.content)|
    requires var alt := t.alts[v.index];
             CutShort(be, alt, ReadFrom(be, alt, Default(alt), Encode(w, alt, v.content)[..j]),
                      j, |Encode(w, alt, v.content)|,
                      Telling(be, w, alt, v.content))
    ensures CutShort(be, t,
                     ReadFrom(be, t, target, ToBytes(Big, v.index, 8) + Encode(w, t.alts[v.index], v.content)[..j]),
                     8 + j, |Encode(w, t, v)|, Telling(be, w, t, v))
  {
    hide ReadFrom, ToBytes, FromBytes, Encode, Default;
    var index, some := ToBytes(Big, v.index, 8), Encode(w, t.alts[v.index], v.content)[..j];
    VariantSizeIs(w, t, v);
    WordRoundTrip(v.index, some);
    assert (index + some)[8..] == some;
    ReadVariantStep(be, t, target, index + some);
    if !be.File? {
      CountBound(be, t.alts[v.index], Default(t.alts[v.index]), some);
    }
    if (be.Descriptor? || be.File?) && OneByte(t.alts[v.index]) {
      OneByteAtEnd(be, w, t.alts[v.index], v.content, Default(t.alts[v.index]));
      assert some == [];
    }
  }

  /** A list reading is as complete as that of its components. */
  lemma ListCutShort(be: Backend, t: Ty, target: Obj, head: seq<Byte>, some: seq<Byte>, n: nat, size: nat,
          telling: bool)
    requires IsList(t) && n > 0
    requires var h := ReadHead(t, head + some);
             && h.Head? && h.used == |head|
             && var ts := Kids(t, h.n);
                n == |ts| && AllCutShort(ReadAll(be, Narrows(t, be), ts, KidTargets(t, target, ts), some),
                                         n, |some|, size, telling)
    ensures CutShort(be, t, ReadFrom(be, t, target, head + some), |head| + |some|, |head| + size, telling)
  {
    ReadListStep(be, t, target, head + some);
    assert (head + some)[|head|..] == some;
  }

  lemma HeadCutShort(be: Backend, t: Ty, target: Obj, bytes: seq<Byte>, size: nat, telling: bool)
    requires IsList(t) && ReadHead(t, bytes) == NoHead(|bytes|) && (telling || |bytes| < size - 1)
    ensures CutShort(be, t, ReadFrom(be, t, target, bytes), |bytes|, size, telling)
  {
  }

  lemma ListTelling(be: Backend, w: Backend, t: Ty, v: Val)
    requires IsList(t) && WellTyped(t, v)
    ensures var ts := Kids(t, |v.items|);
            && |ts| == |v.items|
            && (ts != [] ==> (Telling(be, w, t, v) <==> be.File? || LastTelling(be, w, ts, v.items)))
            && (ts == [] ==> Telling(be, w, t, v))
  {
  }

  lemma CutList(w: Backend, t: Ty, v: Val, k: nat)
    requires IsList(t) && WellTyped(t, v) && k <= |Encode(w, t, v)|
    ensures var head, body := HeadBytes(w, t, |v.items|), EncodeAll(w, Kids(t, |v.items|), v.items);
            && |Encode(w, t, v)| == |head| + |body|
            && Encode(w, t, v)[..k] == if k < |head| then head[..k] else head + body[..k - |head|]
  {
    var head, body := HeadBytes(w, t, |v.items|), EncodeAll(w, Kids(t, |v.items|), v.items);
    if k < |head| {
      CutWithin(head, body, k);
    } else {
      CutAfter(head, body, k);
    }
  }

  lemma {:induction false} ListTruncated(be: Backend, w: Backend, t: Ty, v: Val, target: Obj, k: nat)
    requires IsList(t) && WellTyped(t, v) && be.File? == w.File?
    requires be.File? || Solid(w, t, v)
    requires k < |Encode(w, t, v)|
    ensures CutShort(be, t, ReadFrom(be, t, target, Encode(w, t, v)[..k]), k, |Encode(w, t, v)|, Telling(be, w, t, v))
    decreases v.items, 3
  {
    hide ReadFrom, ReadAll, Telling, Encode, EncodeAll, LastTelling;
    CutList(w, t, v, k);
    if k < |HeadBytes(w, t, |v.items|)| {
      BreaksInHead(be, w, t, v, target, k, Encode(w, t, v)[..k]);
    } else {
      BreaksInBody(be, w, t, v, target, k, Encode(w, t, v)[..k]);
    }
  }

  lemma BreaksInHead(be: Backend, w: Backend, t: Ty, v: Val, target: Obj, k: nat, bytes: seq<Byte>)
    requires IsList(t) && WellTyped(t, v) && (be.File? || Solid(w, t, v))
    requires k < |HeadBytes(w, t, |v.items|)| && bytes == HeadBytes(w, t, |v.items|)[..k]
    ensures CutShort(be, t, ReadFrom(be, t, target, bytes), k, |Encode(w, t, v)|, Telling(be, w, t, v))
  {
    ListTelling(be, w, t, v);
    HeadTruncated(w, t, |v.items|, k);
    if !be.File? && v.items != [] {
      SolidTakesBytes(w, t.TTuple?, Kids(t, |v.items|), v.items);
    }
    HeadCutShort(be, t, target, bytes, |Encode(w, t, v)|, Telling(be, w, t, v));
  }

  lemma SomeComponent(w: Backend, ts: seq<Ty>, vs: seq<Val>)
    requires AllWellTyped(ts, vs) && EncodeAll(w, ts, vs) != []
    ensures ts != []
  {
  }

  lemma {:induction false} BreaksInBody(be: Backend, w: Backend, t: Ty, v: Val, target: Obj, k: nat, bytes: seq<Byte>)
    requires IsList(t) && WellTyped(t, v) && be.File? == w.File?
    requires be.File? || Solid(w, t, v)
    requires |HeadBytes(w, t, |v.items|)| <= k < |Encode(w, t, v)|
    requires var head, body := HeadBytes(w, t, |v.items|), EncodeAll(w, Kids(t, |v.items|), v.items);
             bytes == head + body[..k - |head|]
    ensures CutShort(be, t, ReadFrom(be, t, target, bytes), k, |Encode(w, t, v)|, Telling(be, w, t, v))
    decreases v.items, 2
  {
    hide ReadFrom, ReadAll, Encode, EncodeAll, Kids, KidTargets, HeadBytes, ReadHead, Telling, LastTelling, AllCutShort;
    var ts := Kids(t, |v.items|);
    var head, body := HeadBytes(w, t, |v.items|), EncodeAll(w, ts, v.items);
    var j := k - |head|;
    CutList(w, t, v, k);
    ListTelling(be, w, t, v);
    ItemsFit(t, v);
    SomeComponent(w, ts, v.items);
    HeadRoundTrip(w, t, |v.items|, body[..j]);
    AllTruncated(be, w, Narrows(t, be), ts, v.items, KidTargets(t, target, ts), j);
    ListCutShort(be, t, target, head, body[..j], |ts|, |body|, Telling(be, w, t, v));
  }

  lemma RestIsSolid(w: Backend, narrow: bool, ts: seq<Ty>, vs: seq<Val>)
    requires AllWellTyped(ts, vs) && ts != [] && AllSolid(w, narrow, ts, vs)
    ensures AllWellTyped(ts[1..], vs[1..]) && AllSolid(w, narrow, ts[1..], vs[1..])
    ensures |ts| > 1 ==> |EncodeAll(w, ts[1..], vs[1..])| > 0
  {
    if |ts| > 1 {
      SolidTakesBytes(w, narrow, ts[1..], vs[1..]);
    }
  }

  /** The first component breaks off and looks read: nothing is left for the others. */
  lemma MaskedInFirst(be: Backend, w: Backend, narrow: bool, ts: seq<Ty>, vs: seq<Val>, targets: seq<Obj>,
          bytes: seq<Byte>)
    requires AllWellTyped(ts, vs) && ts != [] && !be.File? && !w.File? && |targets| == |ts|
             && AllSolid(w, narrow, ts, vs)
    requires ReadFrom(be, ts[0], targets[0], bytes).rc > 0 && ReadFrom(be, ts[0], targets[0], bytes).used == |bytes|
    requires narrow ==> |bytes| < TWO_TO_31
    ensures var m := ReadAll(be, narrow, ts, targets, bytes); m.n == 1 && m.used == |bytes| && m.rc >= 1
  {
    hide ReadFrom, ReadAll, Kept, Encode, EncodeAll, Solid, AllSolid, WellTyped, AllWellTyped;
    CountBound(be, ts[0], targets[0], bytes);
    KeptShrinks(narrow, ReadFrom(be, ts[0], targets[0], bytes).rc);
    ReadAllStep(be, narrow, ts, targets, bytes);
    assert bytes[|bytes|..] == [];
    AllCountBound(be, narrow, ts[1..], targets[1..], []);
    RestIsSolid(w, narrow, ts, vs);
    if |ts| == 1 {
      NoneToRead(be, narrow, ts[1..], targets[1..], []);
    } else {
      NothingForAll(be, w, narrow, ts[1..], vs[1..], targets[1..]);
    }
  }

  lemma StopsAtFirst(be: Backend, narrow: bool, ts: seq<Ty>, targets: seq<Obj>, bytes: seq<Byte>)
    requires ts != [] && |targets| == |ts| && !(be.File? && narrow)
    requires ReadFrom(be, ts[0], targets[0], bytes).rc <= 0
    ensures var m := ReadAll(be, narrow, ts, targets, bytes);
            m.n == 0 && m.rc == 0 && m.used == ReadFrom(be, ts[0], targets[0], bytes).used
  {
    if narrow {
      CountBound(be, ts[0], targets[0], bytes);
      KeptShrinks(narrow, ReadFrom(be, ts[0], targets[0], bytes).rc);
    }
    ReadAllStops(be, narrow, ts, targets, bytes);
  }

  lemma BreaksInFirst(be: Backend, w: Backend, narrow: bool, ts: seq<Ty>, vs: seq<Val>, targets: seq<Obj>,
          bytes: seq<Byte>)
    requires AllWellTyped(ts, vs) && ts != [] && be.File? == w.File? && |targets| == |ts| && !(be.File? && narrow)
    requires be.File? || AllSolid(w, narrow, ts, vs)
    requires |bytes| < |Encode(w, ts[0], vs[0])|
    requires CutShort(be, ts[0], ReadFrom(be, ts[0], targets[0], bytes), |bytes|, |Encode(w, ts[0], vs[0])|,
                      Telling(be, w, ts[0], vs[0]))
    ensures AllCutShort(ReadAll(be, narrow, ts, targets, bytes), |ts|, |bytes|, |EncodeAll(w, ts, vs)|,
                        be.File? || LastTelling(be, w, ts, vs))
  {
    if !be.File? && |ts| > 1 {
      SolidTakesBytes(w, narrow, ts[1..], vs[1..]);
    }
    if ReadFrom(be, ts[0], targets[0], bytes).rc > 0 {
      MaskedInFirst(be, w, narrow, ts, vs, targets, bytes);
    } else {
      StopsAtFirst(be, narrow, ts, targets, bytes);
    }
  }

  /** The first component is whole: the outcome is that of the others. */
  lemma AfterFirst(be: Backend, narrow: bool, ts: seq<Ty>, targets: seq<Obj>, first: seq<Byte>, some: seq<Byte>,
          size: nat, telling: bool)
    requires ts != [] && |targets| == |ts|
    requires var r := ReadFrom(be, ts[0], targets[0], first + some);
             0 < r.rc && (narrow ==> r.rc < TWO_TO_31) && r.used == |first|
    requires AllCutShort(ReadAll(be, narrow, ts[1..], targets[1..], some), |ts[1..]|, |some|, size, telling)
    ensures AllCutShort(ReadAll(be, narrow, ts, targets, first + some), |ts|, |first| + |some|, |first| + size, telling)
  {
    KeptShrinks(narrow, ReadFrom(be, ts[0], targets[0], first + some).rc);
    ReadAllStep(be, narrow, ts, targets, first + some);
    assert (first + some)[|first|..] == some;
  }

  lemma {:induction false} AllTruncated(be: Backend, w: Backend, narrow: bool, ts: seq<Ty>, vs: seq<Val>,
          targets: seq<Obj>, k: nat)
    requires AllWellTyped(ts, vs) && be.File? == w.File? && |targets| == |ts| && !(be.File? && narrow)
    requires be.File? || AllSolid(w, narrow, ts, vs)
    requires k < |EncodeAll(w, ts, vs)|
    ensures AllCutShort(ReadAll(be, narrow, ts, targets, EncodeAll(w, ts, vs)[..k]), |ts|, k, |EncodeAll(w, ts, vs)|,
                        be.File? || LastTelling(be, w, ts, vs))
    decreases vs, 1
  {
    hide ReadFrom, ReadAll, Telling, Default;
    var first, rest := Encode(w, ts[0], vs[0]), EncodeAll(w, ts[1..], vs[1..]);
    assert EncodeAll(w, ts, vs) == first + rest;
    if k < |first| {
      assert EncodeAll(w, ts, vs)[..k] == first[..k] by { CutWithin(first, rest, k); }
      Truncated(be, w, ts[0], vs[0], targets[0], k);
      BreaksInFirst(be, w, narrow, ts, vs, targets, first[..k]);
    } else {
      assert EncodeAll(w, ts, vs)[..k] == first + rest[..k - |first|] by { CutAfter(first, rest, k); }
      BreaksLater(be, w, narrow, ts, vs, targets, k - |first|);
    }
  }

  lemma {:induction false} BreaksLater(be: Backend, w: Backend, narrow: bool, ts: seq<Ty>, vs: seq<Val>,
          targets: seq<Obj>, j: nat)
    requires AllWellTyped(ts, vs) && ts != [] && be.File? == w.File? && |targets| == |ts| && !(be.File? && narrow)
    requires be.File? || AllSolid(w, narrow, ts, vs)
    requires j < |EncodeAll(w, ts[1..], vs[1..])|
    ensures var first, rest := Encode(w, ts[0], vs[0]), EncodeAll(w, ts[1..], vs[1..]);
            AllCutShort(ReadAll(be, narrow, ts, targets, first + rest[..j]), |ts|, |first| + j, |EncodeAll(w, ts, vs)|,
                        be.File? || LastTelling(be, w, ts, vs))
    decreases vs, 0
  {
    var some := EncodeAll(w, ts[1..], vs[1..])[..j];
    RoundTrip(be, w, ts[0], vs[0], targets[0], some);
    AllTruncated(be, w, narrow, ts[1..], vs[1..], targets[1..], j);
    LastOfMany(be, w, ts, vs);
    AfterFirst(be, narrow, ts, targets, Encode(w, ts[0], vs[0]), some, |EncodeAll(w, ts[1..], vs[1..])|,
               be.File? || LastTelling(be, w, ts, vs));
  }

  lemma LastOfMany(be: Backend, w: Backend, ts: seq<Ty>, vs: seq<Val>)
    requires ts != [] && AllWellTyped(ts, vs) && |EncodeAll(w, ts[1..], vs[1..])| > 0
    ensures LastTelling(be, w, ts, vs) <==> LastTelling(be, w, ts[1..], vs[1..])
  {
    assert |ts[1..]| > 0;
  }

  // Success, exactly

  lemma FinishHollow(be: Backend, t: Ty, target: Obj, h: Head, kids: nat, m: Readings)
    requires !be.File? && h.Head? && m.n <= |m.objs| && (m.n < kids || m.rc < m.used)
    ensures var r := FinishRead(be, t, target, h, kids, m); r.rc < r.used
  {
    hide Gather;
  }

  lemma HollowList(be: Backend, w: Backend, t: Ty, v: Val, target: Obj, more: seq<Byte>)
    requires IsList(t) && WellTyped(t, v) && !be.File? && !w.File?
    requires var ts := Kids(t, |v.items|);
             var m := ReadAll(be, Narrows(t, be), ts, KidTargets(t, target, ts), EncodeAll(w, ts, v.items) + more);
             m.n < |ts| || m.rc < m.used
    ensures var r := ReadFrom(be, t, target, Encode(w, t, v) + more); r.rc < r.used
  {
    hide ReadAll, EncodeAll, ReadFrom, FinishRead, Kids, KidTargets, HeadBytes, ReadHead, Encode;
    var ts := Kids(t, |v.items|);
    var head, body := HeadBytes(w, t, |v.items|), EncodeAll(w, ts, v.items);
    ListBytes(w, t, v);
    ItemsFit(t, v);
    Split(head, body, more);
    HeadRoundTrip(w, t, |v.items|, body + more);
    var h := ReadHead(t, head + body + more);
    ReadListStep(be, t, target, head + body + more);
    FinishHollow(be, t, target, h, |ts|, ReadAll(be, Narrows(t, be), ts, KidTargets(t, target, ts), body + more));
  }

  /** A value with a component whose count is lost: reading it fails, or counts fewer bytes
      than it consumes. */
  lemma {:induction false} HollowReadFails(be: Backend, w: Backend, t: Ty, v: Val, target: Obj, more: seq<Byte>)
    requires WellTyped(t, v) && !be.File? && !w.File? && !Solid(w, t, v)
    ensures var r := ReadFrom(be, t, target, Encode(w, t, v) + more); r.rc < r.used
    decreases v, 0
  {
    hide ReadFrom, ReadAll, Encode, EncodeAll, KidTargets, Default, Kids;
    if IsList(t) {
      var ts := Kids(t, |v.items|);
      AllHollowReadFails(be, w, Narrows(t, be), ts, v.items, KidTargets(t, target, ts), more);
      HollowList(be, w, t, v, target, more);
    } else {
      HollowReadFails(be, w, t.alts[v.index], v.content, Default(t.alts[v.index]), more);
      HollowVariant(be, w, t, v, target, more);
    }
  }

  lemma HollowVariant(be: Backend, w: Backend, t: Ty, v: Val, target: Obj, more: seq<Byte>)
    requires WellTyped(t, v) && t.TVariant? && !be.File?
    requires var alt := t.alts[v.index];
             var r := ReadFrom(be, alt, Default(alt), Encode(w, alt, v.content) + more); r.rc < r.used
    ensures var r := ReadFrom(be, t, target, Encode(w, t, v) + more); r.rc < r.used
  {
    hide ReadFrom, ReadAll, Default, FromBytes, ToBytes;
    var index, content := ToBytes(Big, v.index, 8), Encode(w, t.alts[v.index], v.content);
    Split(index, content, more);
    WordRoundTrip(v.index, content + more);
    ReadVariantStep(be, t, target, index + content + more);
  }

  lemma {:induction false} AllHollowReadFails(be: Backend, w: Backend, narrow: bool, ts: seq<Ty>, vs: seq<Val>,
          targets: seq<Obj>, more: seq<Byte>)
    requires AllWellTyped(ts, vs) && !be.File? && !w.File? && !AllSolid(w, narrow, ts, vs) && |targets| == |ts|
    ensures var m := ReadAll(be, narrow, ts, targets, EncodeAll(w, ts, vs) + more); m.n < |ts| || m.rc < m.used
    decreases vs, 1
  {
    hide ReadFrom, ReadAll, Kept, Left, Encode;
    var first, rest := Encode(w, ts[0], vs[0]), EncodeAll(w, ts[1..], vs[1..]);
    var bytes := first + rest + more;
    Split(first, rest, more);
    var r := ReadFrom(be, ts[0], targets[0], bytes);
    if Solid(w, ts[0], vs[0]) {
      RoundTrip(be, w, ts[0], vs[0], targets[0], rest + more);
    } else {
      HollowReadFails(be, w, ts[0], vs[0], targets[0], rest + more);
    }
    CountBound(be, ts[0], targets[0], bytes);
    KeptShrinks(narrow, r.rc);
    if Kept(narrow, r.rc) <= 0 {
      ReadAllStops(be, narrow, ts, targets, bytes);
    } else {
      ReadAllStep(be, narrow, ts, targets, bytes);
      if Solid(w, ts[0], vs[0]) && Counts(narrow, |first|) {
        AllHollowReadFails(be, w, narrow, ts[1..], vs[1..], targets[1..], more);
      } else {
        AllCountBound(be, narrow, ts[1..], targets[1..], bytes[r.used..]);
      }
    }
  }

  /** DescriptorIO, GZIO and BZ2IO return the number of bytes they consumed exactly for the
      solid values; and then they consumed all of the encoding and no more. */
  lemma ReadSucceedsExactly(be: Backend, w: Backend, t: Ty, v: Val, target: Obj, more: seq<Byte>)
    requires WellTyped(t, v) && !be.File? && !w.File?
    ensures var r := ReadFrom(be, t, target, Encode(w, t, v) + more);
            && (r.rc == r.used <==> Solid(w, t, v))
            && (Solid(w, t, v) ==> r.used == |Encode(w, t, v)|)
  {
    hide ReadFrom, Encode, Left, Solid;
    if Solid(w, t, v) {
      RoundTrip(be, w, t, v, target, more);
    } else {
      HollowReadFails(be, w, t, v, target, more);
    }
  }
}
