/** What a reader recovers: the object written, whatever it read into and whoever wrote it. */
module CodecTheorems {
  import opened Bytes
  import opened EncodedInteger
  import opened CodecTypes
  import opened Codec
  import opened CodecRoundTrip

  // Collections

  /** Types whose object is the list of its components. */
  predicate IsPlain(t: Ty) {
    Emptied(t) == OList([])
  }

  lemma {:induction false} GatherPlain(t: Ty, objs: seq<Obj>)
    requires IsPlain(t)
    ensures Gather(t, objs) == OList(objs)
  {
    if objs != [] {
      GatherPlain(t, objs[..|objs| - 1]);
      assert objs == objs[..|objs| - 1] + [objs[|objs| - 1]];
    }
  }

  lemma {:induction false} GatherSet(t: Ty, objs: seq<Obj>)
    requires t.TCont? && t.kind.Set?
    ensures Gather(t, objs) == OSet(set o | o in objs)
  {
    if objs != [] {
      var init := objs[..|objs| - 1];
      GatherSet(t, init);
      assert objs == init + [objs[|objs| - 1]];
    }
  }

  lemma {:induction false} GatherBag(t: Ty, objs: seq<Obj>)
    requires (t.TCont? && t.kind.Multiset?) || (t.TMap? && !t.unique)
    ensures Gather(t, objs) == OBag(multiset(objs))
  {
    if objs != [] {
      var init := objs[..|objs| - 1];
      GatherBag(t, init);
      assert objs == init + [objs[|objs| - 1]];
    }
  }

  /** The entries have different keys. */
  ghost predicate DistinctKeys(objs: seq<Obj>) {
    forall i, j :: 0 <= i < j < |objs| ==> Key(objs[i]) != Key(objs[j])
  }

  lemma {:induction false} GatherMapKeys(t: Ty, objs: seq<Obj>)
    requires t.TMap? && t.unique
    ensures Gather(t, objs).OMap? && Gather(t, objs).entries.Keys == KeysOf(objs)
  {
    if objs != [] {
      GatherMapKeys(t, objs[..|objs| - 1]);
    }
  }

  function KeysOf(objs: seq<Obj>): (keys: set<Obj>)
    ensures forall i :: 0 <= i < |objs| ==> Key(objs[i]) in keys
  {
    if objs == [] then {} else KeysOf(objs[..|objs| - 1]) + {Key(objs[|objs| - 1])}
  }

  lemma {:induction false} KeyComesFrom(objs: seq<Obj>, k: Obj) returns (i: nat)
    requires k in KeysOf(objs)
    ensures i < |objs| && Key(objs[i]) == k
  {
    if Key(objs[|objs| - 1]) == k {
      i := |objs| - 1;
    } else {
      i := KeyComesFrom(objs[..|objs| - 1], k);
    }
  }

  lemma {:induction false} GatherMapValues(t: Ty, objs: seq<Obj>, i: nat)
    requires t.TMap? && t.unique && DistinctKeys(objs) && i < |objs|
    ensures var m := Gather(t, objs); m.OMap? && Key(objs[i]) in m.entries && m.entries[Key(objs[i])] == Mapped(objs[i])
  {
    var init := objs[..|objs| - 1];
    GatherMapKeys(t, init);
    if i < |init| {
      GatherMapValues(t, init, i);
      assert init[i] == objs[i];
    } else {
      forall k | k in KeysOf(init) ensures k != Key(objs[i]) {
        var j := KeyComesFrom(init, k);
        assert objs[j] == init[j];
      }
    }
  }

  // Targets

  /** Some optional in `target` has a value where the one in `v` has none. */
  ghost predicate Stale(t: Ty, target: Obj, v: Val)
    requires WellTyped(t, v)
    decreases v, 0
  {
    if IsList(t) then
      if t.TOptional? && v.items == [] then target != OList([])
      else AnyStale(Kids(t, |v.items|), KidTargets(t, target, Kids(t, |v.items|)), v.items)
    else t.TVariant? && Stale(t.alts[v.index], Default(t.alts[v.index]), v.content)
  }

  ghost predicate AnyStale(ts: seq<Ty>, targets: seq<Obj>, vs: seq<Val>)
    requires AllWellTyped(ts, vs) && |targets| == |ts|
    decreases vs, 1
  {
    ts != [] && (Stale(ts[0], targets[0], vs[0]) || AnyStale(ts[1..], targets[1..], vs[1..]))
  }

  /** New objects have no optional with a value. */
  lemma {:induction false} DefaultIsNotStale(t: Ty, v: Val)
    requires WellTyped(t, v)
    ensures !Stale(t, Default(t), v)
    decreases v, 0
  {
    if IsList(t) {
      var ts := Kids(t, |v.items|);
      DefaultKidTargets(t, |v.items|);
      DefaultsAreNotStale(ts, v.items);
    } else if t.TVariant? {
      DefaultIsNotStale(t.alts[v.index], v.content);
    }
  }

  lemma DefaultOfList(t: Ty)
    requires IsList(t)
    ensures Default(t) == Gather(t, Defaults(Kids(t, 0)))
  {
    hide Gather, Kids, Defaults;
  }

  lemma DefaultKidTargets(t: Ty, n: nat)
    requires IsList(t)
    ensures KidTargets(t, Default(t), Kids(t, n)) == Defaults(Kids(t, n))
    ensures t.TOptional? ==> Default(t) == OList([])
  {
    hide Default, Gather;
    DefaultOfList(t);
    if IsPlain(t) {
      GatherPlain(t, Defaults(Kids(t, 0)));
    }
  }

  lemma {:induction false} DefaultsAreNotStale(ts: seq<Ty>, vs: seq<Val>)
    requires AllWellTyped(ts, vs)
    ensures !AnyStale(ts, Defaults(ts), vs)
    decreases vs, 1
  {
    if ts != [] {
      DefaultIsNotStale(ts[0], vs[0]);
      DefaultsAreNotStale(ts[1..], vs[1..]);
    }
  }

  lemma GatherIsFaithful(t: Ty, xs: seq<Obj>, ys: seq<Obj>)
    ensures xs == ys ==> Gather(t, xs) == Gather(t, ys)
    ensures IsPlain(t) && Gather(t, xs) == Gather(t, ys) ==> xs == ys
  {
    if IsPlain(t) {
      GatherPlain(t, xs);
      GatherPlain(t, ys);
    }
  }

  lemma ListLeft(be: Backend, t: Ty, target: Obj, v: Val)
    requires WellTyped(t, v) && IsList(t) && !(t.TOptional? && v.items == [])
    requires var ts := Kids(t, |v.items|);
             IsPlain(t) || LeftAll(be, ts, KidTargets(t, target, ts), v.items) == AbsAll(ts, v.items)
    ensures var ts := Kids(t, |v.items|);
            Left(be, t, target, v) == Abs(t, v) <==>
            LeftAll(be, ts, KidTargets(t, target, ts), v.items) == AbsAll(ts, v.items)
  {
    var ts := Kids(t, |v.items|);
    GatherIsFaithful(t, LeftAll(be, ts, KidTargets(t, target, ts), v.items), AbsAll(ts, v.items));
  }

  /** FileIO leaves exactly the value it read. The others do so exactly when no empty
      optional was read into one that had a value. */
  lemma {:induction false} LeftIsTheValue(be: Backend, t: Ty, target: Obj, v: Val)
    requires WellTyped(t, v)
    ensures Left(be, t, target, v) == Abs(t, v) <==> be.File? || !Stale(t, target, v)
    decreases v, 0
  {
    if IsList(t) {
      var ts := Kids(t, |v.items|);
      var targets := KidTargets(t, target, ts);
      if t.TOptional? && v.items == [] {
        GatherPlain(t, []);
      } else {
        LeftAllAreTheValues(be, ts, targets, v.items);
        if !IsPlain(t) {
          DefaultsAreNotStale(ts, v.items);
        }
        ListLeft(be, t, target, v);
      }
    } else if t.TVariant? {
      LeftIsTheValue(be, t.alts[v.index], Default(t.alts[v.index]), v.content);
    }
  }

  lemma {:induction false} LeftAllAreTheValues(be: Backend, ts: seq<Ty>, targets: seq<Obj>, vs: seq<Val>)
    requires AllWellTyped(ts, vs) && |targets| == |ts|
    ensures LeftAll(be, ts, targets, vs) == AbsAll(ts, vs) <==> be.File? || !AnyStale(ts, targets, vs)
    decreases vs, 1
  {
    if ts != [] {
      LeftIsTheValue(be, ts[0], targets[0], vs[0]);
      LeftAllAreTheValues(be, ts[1..], targets[1..], vs[1..]);
      var lefts, abss := LeftAll(be, ts, targets, vs), AbsAll(ts, vs);
      assert lefts[0] == Left(be, ts[0], targets[0], vs[0])
             && lefts[1..] == LeftAll(be, ts[1..], targets[1..], vs[1..]);
      assert abss[0] == Abs(ts[0], vs[0]) && abss[1..] == AbsAll(ts[1..], vs[1..]);
    }
  }

  /** The round trip into a target with no stale optional: exactly the value comes back. */
  lemma ReadsBackTheValue(be: Backend, w: Backend, t: Ty, v: Val, target: Obj, more: seq<Byte>)
    requires WellTyped(t, v) && be.File? == w.File?
    requires be.File? || (Solid(w, t, v) && !Stale(t, target, v))
    ensures Succeeds(be, ReadFrom(be, t, target, Encode(w, t, v) + more), Abs(t, v), |Encode(w, t, v)|)
  {
    RoundTrip(be, w, t, v, target, more);
    LeftIsTheValue(be, t, target, v);
  }

  // Backends

  ghost predicate HasString(t: Ty, v: Val)
    requires WellTyped(t, v)
    decreases v, 0
  {
    if IsList(t) then AnyString(Kids(t, |v.items|), v.items)
    else if t.TVariant? then HasString(t.alts[v.index], v.content)
    else t.TString?
  }

  ghost predicate AnyString(ts: seq<Ty>, vs: seq<Val>)
    requires AllWellTyped(ts, vs)
    decreases vs, 1
  {
    ts != [] && (HasString(ts[0], vs[0]) || AnyString(ts[1..], vs[1..]))
  }

  /** The backend as it is on a machine of the given byte order. */
  function On(be: Backend, native: Endian): (r: Backend)
    ensures r.native == native && (r.File? <==> be.File?)
  {
    be.(native := native)
  }

  /** Machines of one byte order write the same bytes through any two of DescriptorIO,
      GZIO and BZ2IO, and through FileIO if the value holds no string. */
  lemma {:induction false} SameBytes(w: Backend, u: Backend, t: Ty, v: Val)
    requires WellTyped(t, v) && w.native == u.native
    requires w.File? == u.File? || !HasString(t, v)
    ensures Encode(u, t, v) == Encode(w, t, v)
    decreases v, 0
  {
    if IsList(t) {
      AllSameBytes(w, u, Kids(t, |v.items|), v.items);
    } else if t.TVariant? {
      SameBytes(w, u, t.alts[v.index], v.content);
    }
  }

  lemma {:induction false} AllSameBytes(w: Backend, u: Backend, ts: seq<Ty>, vs: seq<Val>)
    requires AllWellTyped(ts, vs) && w.native == u.native
    requires w.File? == u.File? || !AnyString(ts, vs)
    ensures EncodeAll(u, ts, vs) == EncodeAll(w, ts, vs)
    decreases vs, 1
  {
    if ts != [] {
      SameBytes(w, u, ts[0], vs[0]);
      AllSameBytes(w, u, ts[1..], vs[1..]);
    }
  }

  /** Solidity is about sizes, so it is the same for all who write the same bytes. */
  lemma {:induction false} SameSolid(w: Backend, u: Backend, t: Ty, v: Val)
    requires WellTyped(t, v) && w.native == u.native && (w.File? == u.File? || !HasString(t, v))
    ensures Solid(u, t, v) == Solid(w, t, v)
    decreases v, 0
  {
    if IsList(t) {
      AllSameSolid(w, u, t.TTuple?, Kids(t, |v.items|), v.items);
    } else if t.TVariant? {
      SameSolid(w, u, t.alts[v.index], v.content);
    }
  }

  lemma {:induction false} AllSameSolid(w: Backend, u: Backend, narrow: bool, ts: seq<Ty>, vs: seq<Val>)
    requires AllWellTyped(ts, vs) && w.native == u.native && (w.File? == u.File? || !AnyString(ts, vs))
    ensures AllSolid(u, narrow, ts, vs) == AllSolid(w, narrow, ts, vs)
    decreases vs, 1
  {
    if ts != [] {
      SameBytes(w, u, ts[0], vs[0]);
      SameSolid(w, u, ts[0], vs[0]);
      AllSameSolid(w, u, narrow, ts[1..], vs[1..]);
    }
  }

  /** What one backend writes, on a machine of either byte order, every backend reads back
      as the same value; between FileIO and the others, unless it holds strings. */
  lemma BackendsInterchange(be: Backend, w: Backend, t: Ty, v: Val, target: Obj, more: seq<Byte>)
    requires WellTyped(t, v) && (be.File? == w.File? || !HasString(t, v))
    requires be.File? || (Solid(w, t, v) && !Stale(t, target, v))
    ensures Succeeds(be, ReadFrom(be, t, target, Encode(w, t, v) + more), Abs(t, v), |Encode(w, t, v)|)
  {
    var u := On(be, w.native);
    SameBytes(w, u, t, v);
    SameSolid(w, u, t, v);
    ReadsBackTheValue(be, u, t, v, target, more);
  }
}
