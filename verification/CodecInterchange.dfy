/** Reading with FileIO what the others wrote, and the other way round: for values in which
    every component has its place it gives the value back exactly if there is no string. */
module CodecInterchange {
  import opened Bytes
  import opened EncodedInteger
  import opened CodecTypes
  import opened Codec
  import opened CodecRoundTrip
  import opened CodecTheorems
  import opened CodecTruncation
  import opened CodecWrites
  import opened CodecStrings

  /** Types without sets, multisets and maps: every component is read into its own place.
      GZIO and BZ2IO take the bad index of a variant for a success, so for them there are
      no variants either. */
  predicate Ordered(be: Backend, t: Ty) {
    match t
    case TPair(a, b) => Ordered(be, a) && Ordered(be, b)
    case TTuple(ts) => AllOrdered(be, ts)
    case TArray(e, _) => Ordered(be, e)
    case TBounded(e, _) => Ordered(be, e)
    case TCont(kind, e) => kind.Sequence? && Ordered(be, e)
    case TMap(_, _, _) => false
    case TVariant(ts) => !be.Gz? && !be.Bz2? && AllOrdered(be, ts)
    case TOptional(e) => Ordered(be, e)
    case _ => true
  }

  predicate AllOrdered(be: Backend, ts: seq<Ty>) {
    ts == [] || (Ordered(be, ts[0]) && AllOrdered(be, ts[1..]))
  }

  lemma {:induction false} OrderedAt(be: Backend, ts: seq<Ty>, i: nat)
    requires AllOrdered(be, ts) && i < |ts|
    ensures Ordered(be, ts[i])
  {
    if i > 0 {
      OrderedAt(be, ts[1..], i - 1);
    }
  }

  lemma {:induction false} CopiesOrdered(be: Backend, e: Ty, n: nat)
    requires Ordered(be, e)
    ensures AllOrdered(be, Copies(e, n))
  {
    if n > 0 {
      CopiesOrdered(be, e, n - 1);
      assert Copies(e, n)[1..] == Copies(e, n - 1);
    }
  }

  lemma KidsOrdered(be: Backend, t: Ty, n: nat)
    requires IsList(t) && Ordered(be, t)
    ensures AllOrdered(be, Kids(t, n)) && IsPlain(t) && !t.TMap?
  {
    match t
    case TPair(a, b) => assert [a, b][1..] == [b] && [b][1..] == [];
    case TTuple(_) =>
    case TArray(e, k) => CopiesOrdered(be, e, k);
    case TBounded(e, k) => CopiesOrdered(be, e, k);
    case TCont(_, e) => CopiesOrdered(be, e, n);
    case TOptional(e) => CopiesOrdered(be, e, Min(n, 1));
  }

  /** Every string has fewer than 2^48 characters. */
  ghost predicate StringsFit(t: Ty, v: Val)
    requires WellTyped(t, v)
    decreases v, 0
  {
    if IsList(t) then AllStringsFit(Kids(t, |v.items|), v.items)
    else if t.TVariant? then StringsFit(t.alts[v.index], v.content)
    else t.TString? ==> |v.chars| < Pow256(6)
  }

  ghost predicate AllStringsFit(ts: seq<Ty>, vs: seq<Val>)
    requires AllWellTyped(ts, vs)
    decreases vs, 1
  {
    ts == [] || (StringsFit(ts[0], vs[0]) && AllStringsFit(ts[1..], vs[1..]))
  }

  /** A read that succeeds: FileIO says so, the others by counting all that they consume. */
  predicate Full(be: Backend, r: Reading) {
    if be.File? then r.rc > 0 else r.rc == r.used
  }

  lemma FinishedList(be: Backend, t: Ty, target: Obj, h: Head, kids: nat, m: Readings)
    requires IsPlain(t) && !t.TMap? && h.Head? && m.n <= |m.objs| == kids
    requires t.TOptional? ==> h.n == kids && (be.File? || target == OList([]))
    requires Full(be, FinishRead(be, t, target, h, kids, m))
    ensures m.n == kids && (!be.File? ==> m.rc == m.used)
    ensures FinishRead(be, t, target, h, kids, m).obj == OList(m.objs)
    ensures FinishRead(be, t, target, h, kids, m).used == h.used + m.used
  {
    hide Gather;
    GatherPlain(t, m.objs);
    GatherPlain(t, m.objs[..m.n]);
  }

  lemma AbsPlain(t: Ty, v: Val)
    requires IsList(t) && WellTyped(t, v) && IsPlain(t)
    ensures Abs(t, v) == OList(AbsAll(Kids(t, |v.items|), v.items))
  {
    hide Gather, AbsAll;
    GatherPlain(t, AbsAll(Kids(t, |v.items|), v.items));
  }

  lemma KidsOf(be: Backend, t: Ty, n: nat)
    requires IsList(t) && Ordered(be, t)
    ensures t.TCont? ==> |Kids(t, n)| == n
    ensures t.TOptional? && n <= 1 ==> |Kids(t, n)| == n
    ensures !t.TCont? && !t.TOptional? ==> forall m: nat :: Kids(t, m) == Kids(t, n)
  {
  }

  /** The components of a list whose reading gives the value `v`. */
  function KidsRead(be: Backend, t: Ty, v: Val, target: Obj, bytes: seq<Byte>): (m: Readings)
    requires IsList(t) && WellTyped(t, v)
  {
    var ts := Kids(t, |v.items|);
    ReadAll(be, Narrows(t, be), ts, KidTargets(t, target, ts), bytes[ReadHead(t, bytes).used..])
  }

  /** What a list reading that gives a value must have read. */
  lemma ListRead(be: Backend, t: Ty, v: Val, target: Obj, bytes: seq<Byte>)
    requires IsList(t) && WellTyped(t, v) && Ordered(be, t) && (be.File? || target == Default(t))
    requires Full(be, ReadFrom(be, t, target, bytes)) && ReadFrom(be, t, target, bytes).obj == Abs(t, v)
    ensures ReadHead(t, bytes).Head?
    ensures t.TCont? || t.TOptional? ==> ReadHead(t, bytes).n == |v.items|
    ensures var m := KidsRead(be, t, v, target, bytes);
            && m.n == |Kids(t, |v.items|)| && m.objs == AbsAll(Kids(t, |v.items|), v.items)
            && (!be.File? ==> m.rc == m.used)
            && ReadFrom(be, t, target, bytes).used == ReadHead(t, bytes).used + m.used
  {
    hide ReadFrom, ReadAll, Gather, Kids, KidTargets, FinishRead, Ordered, Abs, AbsAll, Default;
    KidsOrdered(be, t, 0);
    if ReadHead(t, bytes).NoHead? {
      HeadlessFails(be, t, target, bytes);
    }
    var h := ReadHead(t, bytes);
    var ts := Kids(t, h.n);
    var m := ReadAll(be, Narrows(t, be), ts, KidTargets(t, target, ts), bytes[h.used..]);
    ReadListStep(be, t, target, bytes);
    KidsOf(be, t, h.n);
    KidsOf(be, t, |v.items|);
    ItemsFit(t, v);
    if t.TOptional? {
      DefaultKidTargets(t, 0);
      FlagIsSmall(t, bytes);
    }
    FinishedList(be, t, target, h, |ts|, m);
    AbsPlain(t, v);
  }

  lemma FlagIsSmall(t: Ty, bytes: seq<Byte>)
    requires t.TOptional? && ReadHead(t, bytes).Head?
    ensures ReadHead(t, bytes).n <= 1
  {
  }

  lemma HeadlessFails(be: Backend, t: Ty, target: Obj, bytes: seq<Byte>)
    requires IsList(t) && ReadHead(t, bytes).NoHead?
    ensures ReadFrom(be, t, target, bytes).rc == Fail(be)
  {
  }

  // FileIO reads what the others wrote

  /** FileIO's encoding is longer wherever there is a string. */
  lemma {:induction false} LongerInFileIO(w: Backend, u: Backend, t: Ty, v: Val)
    requires WellTyped(t, v) && StringsFit(t, v) && w.File? && !u.File?
    ensures |Encode(u, t, v)| <= |Encode(w, t, v)|
    ensures HasString(t, v) ==> |Encode(u, t, v)| < |Encode(w, t, v)|
    decreases v, 0
  {
    if IsList(t) {
      ListSizeIs(w, t, v);
      ListSizeIs(u, t, v);
      AllLongerInFileIO(w, u, Kids(t, |v.items|), v.items);
    } else if t.TVariant? {
      VariantSizeIs(w, t, v);
      VariantSizeIs(u, t, v);
      LongerInFileIO(w, u, t.alts[v.index], v.content);
    } else if t.TString? {
      ByteLengthIsLeast(|v.chars|, 6);
    }
  }

  lemma {:induction false} AllLongerInFileIO(w: Backend, u: Backend, ts: seq<Ty>, vs: seq<Val>)
    requires AllWellTyped(ts, vs) && AllStringsFit(ts, vs) && w.File? && !u.File?
    ensures |EncodeAll(u, ts, vs)| <= |EncodeAll(w, ts, vs)|
    ensures AnyString(ts, vs) ==> |EncodeAll(u, ts, vs)| < |EncodeAll(w, ts, vs)|
    decreases vs, 1
  {
    if ts != [] {
      AllSizeIs(w, ts, vs);
      AllSizeIs(u, ts, vs);
      LongerInFileIO(w, u, ts[0], vs[0]);
      AllLongerInFileIO(w, u, ts[1..], vs[1..]);
    }
  }

  lemma CountNeeds(w: Backend, bytes: seq<Byte>)
    ensures var h := ReadCount(bytes); h.Head? ==> h.n < Pow256(8) && h.used >= |Wire(w.native, false, h.n, 8)|
  {
    if Unwire(bytes, 8).Some? {
      var u := Unwire(bytes, 8).value;
      var h := ParseStart(bytes[0], 8);
      FromBytesBound(h.order, bytes[1..1 + h.size]);
      ByteLengthIsLeast(u.magnitude, h.size);
    }
  }

  lemma LeafNeeds(w: Backend, t: Ty, v: Val, target: Obj, bytes: seq<Byte>)
    requires w.File? && WellTyped(t, v) && !IsList(t) && !t.TVariant?
    requires var r := ReadLeaf(w, t, target, bytes); r.rc > 0 && r.obj == AbsLeaf(t, v)
    ensures ReadLeaf(w, t, target, bytes).used >= |EncodeLeaf(w, t, v)|
  {
    hide FromBytes, ToBytes;
  }

  lemma HeadNeeds(w: Backend, t: Ty, n: nat, bytes: seq<Byte>)
    requires IsList(t) && Ordered(w, t) && ReadHead(t, bytes).Head? && n < Pow256(8)
    requires t.TCont? ==> ReadHead(t, bytes).n == n
    ensures ReadHead(t, bytes).used >= |HeadBytes(w, t, n)|
  {
    hide Wire, ToBytes;
    if t.TCont? {
      CountNeeds(w, bytes);
    }
  }

  /** From whatever bytes FileIO reads a value, it takes at least as many as it writes. */
  lemma {:induction false} FileIONeeds(w: Backend, t: Ty, v: Val, target: Obj, bytes: seq<Byte>)
    requires w.File? && WellTyped(t, v) && Ordered(w, t)
    requires var r := ReadFrom(w, t, target, bytes); r.rc > 0 && r.obj == Abs(t, v)
    ensures ReadFrom(w, t, target, bytes).used >= |Encode(w, t, v)|
    decreases v, 0
  {
    if IsList(t) {
      ListNeeds(w, t, v, target, bytes);
    } else if t.TVariant? {
      VariantSizeIs(w, t, v);
      ReadVariantStep(w, t, target, bytes);
      OrderedAt(w, t.alts, v.index);
      FileIONeeds(w, t.alts[v.index], v.content, Default(t.alts[v.index]), bytes[8..]);
    } else {
      LeafNeeds(w, t, v, target, bytes);
    }
  }

  lemma {:induction false} ListNeeds(w: Backend, t: Ty, v: Val, target: Obj, bytes: seq<Byte>)
    requires w.File? && IsList(t) && WellTyped(t, v) && Ordered(w, t)
    requires var r := ReadFrom(w, t, target, bytes); r.rc > 0 && r.obj == Abs(t, v)
    ensures ReadFrom(w, t, target, bytes).used >= |Encode(w, t, v)|
    decreases v.items, 2
  {
    hide ReadFrom, ReadAll, Kids, Ordered, Encode, EncodeAll, HeadBytes, ReadHead, KidTargets, Abs, AbsAll;
    var vs := v.items;
    var ts := Kids(t, |vs|);
    ListRead(w, t, v, target, bytes);
    ListSizeIs(w, t, v);
    HeadNeeds(w, t, |vs|, bytes);
    KidsOrdered(w, t, |vs|);
    AllNeed(w, ts, vs, KidTargets(t, target, ts), bytes[ReadHead(t, bytes).used..]);
  }

  lemma {:induction false} AllNeed(w: Backend, ts: seq<Ty>, vs: seq<Val>, targets: seq<Obj>, bytes: seq<Byte>)
    requires w.File? && AllWellTyped(ts, vs) && AllOrdered(w, ts) && |targets| == |ts|
    requires var m := ReadAll(w, false, ts, targets, bytes); m.n == |ts| && m.objs == AbsAll(ts, vs)
    ensures ReadAll(w, false, ts, targets, bytes).used >= |EncodeAll(w, ts, vs)|
    decreases vs, 1
  {
    if ts != [] {
      AllSizeIs(w, ts, vs);
      FirstOfAll(w, false, ts, vs, targets, bytes);
      var r := ReadFrom(w, ts[0], targets[0], bytes);
      FileIONeeds(w, ts[0], vs[0], targets[0], bytes);
      AllNeed(w, ts[1..], vs[1..], targets[1..], bytes[r.used..]);
    }
  }

  /** If all components give their values, so do the first and the others. */
  lemma FirstOfAll(be: Backend, narrow: bool, ts: seq<Ty>, vs: seq<Val>, targets: seq<Obj>, bytes: seq<Byte>)
    requires AllWellTyped(ts, vs) && ts != [] && |targets| == |ts|
    requires var m := ReadAll(be, narrow, ts, targets, bytes); m.n == |ts| && m.objs == AbsAll(ts, vs)
    ensures var m, r := ReadAll(be, narrow, ts, targets, bytes), ReadFrom(be, ts[0], targets[0], bytes);
            var k := ReadAll(be, narrow, ts[1..], targets[1..], bytes[r.used..]);
            && Kept(narrow, r.rc) > 0 && r.obj == Abs(ts[0], vs[0])
            && k.n == |ts[1..]| && k.objs == AbsAll(ts[1..], vs[1..])
            && m.rc == Kept(narrow, r.rc) + k.rc && m.used == r.used + k.used
  {
    hide ReadFrom, ReadAll, Kept, Abs;
    var r := ReadFrom(be, ts[0], targets[0], bytes);
    if Kept(narrow, r.rc) > 0 {
      ReadAllStep(be, narrow, ts, targets, bytes);
      var k := ReadAll(be, narrow, ts[1..], targets[1..], bytes[r.used..]);
      assert ([r.obj] + k.objs)[1..] == k.objs && AbsAll(ts, vs)[1..] == AbsAll(ts[1..], vs[1..]);
    } else {
      ReadAllStops(be, narrow, ts, targets, bytes);
    }
  }

  /** FileIO never gets a value with a string out of just the bytes the others wrote of it. */
  lemma StringsStayOutside(be: Backend, u: Backend, t: Ty, v: Val, target: Obj, more: seq<Byte>)
    requires be.File? && !u.File? && WellTyped(t, v) && Ordered(be, t) && StringsFit(t, v) && HasString(t, v)
    ensures !Succeeds(be, ReadFrom(be, t, target, Encode(u, t, v) + more), Abs(t, v), |Encode(u, t, v)|)
  {
    hide ReadFrom, Encode, Abs, Ordered;
    var bytes := Encode(u, t, v) + more;
    LongerInFileIO(be, u, t, v);
    if Succeeds(be, ReadFrom(be, t, target, bytes), Abs(t, v), |Encode(u, t, v)|) {
      FileIONeeds(be, t, v, target, bytes);
      assert false;
    }
  }
}
