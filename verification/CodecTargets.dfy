/** What a read depends on: never more than the bytes, where its result is concerned. */
module CodecTargets {
  import opened Bytes
  import opened EncodedInteger
  import opened CodecTypes
  import opened Codec
  import opened CodecRoundTrip

  /** Two readings of the same bytes into different targets. */
  ghost predicate Agree(be: Backend, r: Reading, s: Reading) {
    r.rc == s.rc && r.used == s.used && (be.File? && r.rc > 0 ==> r.obj == s.obj)
  }

  ghost predicate AllAgree(be: Backend, m: Readings, k: Readings) {
    && m.n == k.n && m.rc == k.rc && m.used == k.used && m.n <= |m.objs| == |k.objs|
    && (be.File? ==> m.objs[..m.n] == k.objs[..k.n])
  }

  lemma ScalarIgnoresTarget(be: Backend, t: Ty, width: nat, x: Obj, y: Obj, bytes: seq<Byte>)
    requires t.TInt? || t.TFloat? || (t.TBool? && width == 1)
    ensures Agree(be, ReadScalar(be, t, width, x, bytes), ReadScalar(be, t, width, y, bytes))
  {
    hide FromBytes, ShortTarget;
  }

  lemma LeafIgnoresTarget(be: Backend, t: Ty, x: Obj, y: Obj, bytes: seq<Byte>)
    requires !IsList(t) && !t.TVariant?
    ensures Agree(be, ReadLeaf(be, t, x, bytes), ReadLeaf(be, t, y, bytes))
  {
    hide ReadScalar, ReadCount, ReadWord;
    if t.TInt? || t.TFloat? || t.TBool? {
      ScalarIgnoresTarget(be, t, if t.TBool? then 1 else t.width, x, y, bytes);
    }
  }

  lemma FinishIgnoresTarget(be: Backend, t: Ty, x: Obj, y: Obj, h: Head, kids: nat, m: Readings, k: Readings)
    requires h.Head? && AllAgree(be, m, k) && |m.objs| == kids
    ensures Agree(be, FinishRead(be, t, x, h, kids, m), FinishRead(be, t, y, h, kids, k))
  {
    assert m.n == kids ==> m.objs[..m.n] == m.objs && k.objs[..k.n] == k.objs;
  }

  /** Whatever the bytes, what a target held has no influence on what a Read returns or
      consumes, and what FileIO leaves after a successful read depends on the bytes alone. */
  lemma {:induction false} ReadIgnoresTarget(be: Backend, t: Ty, x: Obj, y: Obj, bytes: seq<Byte>)
    ensures Agree(be, ReadFrom(be, t, x, bytes), ReadFrom(be, t, y, bytes))
    decreases Height(t), 1
  {
    hide ReadFrom;
    if IsList(t) {
      if ReadHead(t, bytes).Head? {
        ListIgnoresTarget(be, t, x, y, bytes);
      } else {
        HeadlessIgnoresTarget(be, t, x, y, bytes);
      }
    } else if t.TVariant? {
      VariantIgnoresTarget(be, t, x, y, bytes);
    } else {
      LeafReadIgnoresTarget(be, t, x, y, bytes);
    }
  }

  lemma HeadlessIgnoresTarget(be: Backend, t: Ty, x: Obj, y: Obj, bytes: seq<Byte>)
    requires IsList(t) && ReadHead(t, bytes).NoHead?
    ensures Agree(be, ReadFrom(be, t, x, bytes), ReadFrom(be, t, y, bytes))
  {
    hide ReadAll, FinishRead, Kids, KidTargets, ReadLeaf, Default;
  }

  lemma VariantIgnoresTarget(be: Backend, t: Ty, x: Obj, y: Obj, bytes: seq<Byte>)
    requires t.TVariant?
    ensures Agree(be, ReadFrom(be, t, x, bytes), ReadFrom(be, t, y, bytes))
  {
    hide ReadAll, FinishRead, Kids, KidTargets, ReadLeaf, Default;
  }

  lemma LeafReadIgnoresTarget(be: Backend, t: Ty, x: Obj, y: Obj, bytes: seq<Byte>)
    requires !IsList(t) && !t.TVariant?
    ensures Agree(be, ReadFrom(be, t, x, bytes), ReadFrom(be, t, y, bytes))
  {
    hide ReadLeaf, ReadAll, FinishRead;
    LeafIgnoresTarget(be, t, x, y, bytes);
  }

  lemma {:induction false} ListIgnoresTarget(be: Backend, t: Ty, x: Obj, y: Obj, bytes: seq<Byte>)
    requires IsList(t) && ReadHead(t, bytes).Head?
    ensures Agree(be, ReadFrom(be, t, x, bytes), ReadFrom(be, t, y, bytes))
    decreases Height(t), 0
  {
    hide ReadFrom, ReadAll, Kids, KidTargets, ReadHead, FinishRead, Narrow;
    var h := ReadHead(t, bytes);
    var ts := Kids(t, h.n);
    var xs, ys := KidTargets(t, x, ts), KidTargets(t, y, ts);
    var rest := bytes[h.used..];
    KidsHeight(t, h.n);
    AllIgnoreTargets(be, Narrows(t, be), ts, xs, ys, rest);
    ReadListStep(be, t, x, bytes);
    ReadListStep(be, t, y, bytes);
    FinishIgnoresTarget(be, t, x, y, h, |ts|, ReadAll(be, Narrows(t, be), ts, xs, rest),
                        ReadAll(be, Narrows(t, be), ts, ys, rest));
  }

  lemma {:induction false} AllIgnoreTargets(be: Backend, narrow: bool, ts: seq<Ty>, xs: seq<Obj>, ys: seq<Obj>,
          bytes: seq<Byte>)
    requires |xs| == |ys| == |ts| && !(be.File? && narrow)
    ensures AllAgree(be, ReadAll(be, narrow, ts, xs, bytes), ReadAll(be, narrow, ts, ys, bytes))
    decreases HeightAll(ts), 2, |ts|
  {
    if ts != [] {
      var r, s := ReadFrom(be, ts[0], xs[0], bytes), ReadFrom(be, ts[0], ys[0], bytes);
      ReadIgnoresTarget(be, ts[0], xs[0], ys[0], bytes);
      if (if narrow then Narrow(r.rc) else r.rc) > 0 {
        AllIgnoreTargets(be, narrow, ts[1..], xs[1..], ys[1..], bytes[r.used..]);
        FirstAgrees(be, r.obj, s.obj, r.rc, r.used, ReadAll(be, narrow, ts[1..], xs[1..], bytes[r.used..]),
                    ReadAll(be, narrow, ts[1..], ys[1..], bytes[r.used..]));
      }
    }
  }

  lemma FirstAgrees(be: Backend, a: Obj, b: Obj, rc: int, used: nat, m: Readings, k: Readings)
    requires AllAgree(be, m, k) && (be.File? ==> a == b)
    ensures AllAgree(be, Readings(1 + m.n, rc + m.rc, [a] + m.objs, used + m.used),
                     Readings(1 + k.n, rc + k.rc, [b] + k.objs, used + k.used))
  {
    assert ([a] + m.objs)[..1 + m.n] == [a] + m.objs[..m.n];
    assert ([b] + k.objs)[..1 + k.n] == [b] + k.objs[..k.n];
  }
}
