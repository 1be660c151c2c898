/** Which object a value is, and so what a reader that gets it holds: component by component,
    and entry by entry for maps, in which the first entry of a key wins. */
module CodecValues {
  import opened Bytes
  import opened EncodedInteger
  import opened CodecTypes
  import opened Codec
  import opened CodecRoundTrip
  import opened CodecTheorems
  import opened CodecLayout

  // Entries

  /** Every object is a pair, as reading an entry of a map gives. */
  ghost predicate Pairs(objs: seq<Obj>) {
    forall i :: 0 <= i < |objs| ==> objs[i].OList? && |objs[i].items| == 2
  }

  /** No entry before `i` has the same key. */
  ghost predicate FirstOfKey(objs: seq<Obj>, i: nat)
    requires Pairs(objs) && i < |objs|
  {
    forall j :: 0 <= j < i ==> objs[j].items[0] != objs[i].items[0]
  }

  /** The map has the keys of the entries, and for each of them the value of the first entry
      with that key. */
  ghost predicate FirstWins(entries: map<Obj, Obj>, objs: seq<Obj>)
    requires Pairs(objs)
  {
    && (forall i :: 0 <= i < |objs| ==> objs[i].items[0] in entries)
    && (forall k :: k in entries ==> HasKey(objs, k))
    && (forall i :: 0 <= i < |objs| && FirstOfKey(objs, i) ==>
          objs[i].items[0] in entries && entries[objs[i].items[0]] == objs[i].items[1])
  }

  ghost predicate HasKey(objs: seq<Obj>, k: Obj)
    requires Pairs(objs)
  {
    exists i :: 0 <= i < |objs| && objs[i].items[0] == k
  }

  lemma OneMoreEntry(entries: map<Obj, Obj>, objs: seq<Obj>, x: Obj)
    requires Pairs(objs) && FirstWins(entries, objs) && x.OList? && |x.items| == 2
    ensures Pairs(objs + [x])
    ensures FirstWins(if x.items[0] in entries then entries else entries[x.items[0] := x.items[1]], objs + [x])
  {
    hide HasKey, FirstOfKey;
    var n, all := |objs|, objs + [x];
    var now := if x.items[0] in entries then entries else entries[x.items[0] := x.items[1]];
    forall k | k in now ensures HasKey(all, k) {
      KeyStays(objs, x, k);
    }
    forall i | 0 <= i < |all| && FirstOfKey(all, i)
      ensures all[i].items[0] in now && now[all[i].items[0]] == all[i].items[1]
    {
      FirstStays(objs, x, i);
    }
  }

  lemma KeyStays(objs: seq<Obj>, x: Obj, k: Obj)
    requires Pairs(objs) && x.OList? && |x.items| == 2 && (HasKey(objs, k) || x.items[0] == k)
    ensures Pairs(objs + [x]) && HasKey(objs + [x], k)
  {
    var all := objs + [x];
    if x.items[0] == k {
      assert all[|objs|].items[0] == k;
    } else {
      var i :| 0 <= i < |objs| && objs[i].items[0] == k;
      assert all[i].items[0] == k;
    }
  }

  lemma FirstStays(objs: seq<Obj>, x: Obj, i: nat)
    requires Pairs(objs) && x.OList? && |x.items| == 2 && i <= |objs| && Pairs(objs + [x]) && FirstOfKey(objs + [x], i)
    ensures if i < |objs| then FirstOfKey(objs, i) && (objs + [x])[i] == objs[i] else !HasKey(objs, x.items[0])
  {
    var all := objs + [x];
    assert forall j :: 0 <= j < |objs| ==> all[j] == objs[j];
  }

  /** Entries inserted one by one, whether or not keys repeat. */
  lemma {:induction false} FirstEntryWins(t: Ty, objs: seq<Obj>)
    requires t.TMap? && t.unique && Pairs(objs)
    ensures Gather(t, objs).OMap? && FirstWins(Gather(t, objs).entries, objs)
  {
    hide HasKey, FirstOfKey, FirstWins;
    if objs == [] {
      NoEntries();
    } else {
      var n := |objs| - 1;
      var init := objs[..n];
      FirstEntryWins(t, init);
      OneMoreEntry(Gather(t, init).entries, init, objs[n]);
      assert objs == init + [objs[n]];
    }
  }

  lemma NoEntries()
    ensures FirstWins(map[], [])
  {
  }

  // Objects

  lemma {:induction false} AbsAt(ts: seq<Ty>, vs: seq<Val>, i: nat)
    requires AllWellTyped(ts, vs) && PairwiseTyped(ts, vs) && i < |ts|
    ensures AbsAll(ts, vs)[i] == Abs(ts[i], vs[i])
  {
    hide Abs, WellTyped;
    if i > 0 {
      AbsAt(ts[1..], vs[1..], i - 1);
    }
  }

  /** The objects that the components of a value are. */
  lemma PartObjects(t: Ty, v: Val) returns (objs: seq<Obj>)
    requires IsList(t) && WellTyped(t, v)
    ensures CanHave(t, |v.items|) && EachPartTyped(t, v.items) && |objs| == |v.items|
    ensures forall i :: 0 <= i < |objs| ==> objs[i] == Abs(PartType(t, i), v.items[i])
    ensures Abs(t, v) == Gather(t, objs)
  {
    hide Abs, AbsAll, Gather, Kids, AllWellTyped;
    ListTypedExactly(t, v);
    KidsTyped(t, v);
    var ts := Kids(t, |v.items|);
    objs := AbsAll(ts, v.items);
    forall i | 0 <= i < |objs| ensures objs[i] == Abs(PartType(t, i), v.items[i]) {
      AbsAt(ts, v.items, i);
    }
    AbsOfList(t, v);
  }

  lemma AbsOfList(t: Ty, v: Val)
    requires IsList(t) && WellTyped(t, v)
    ensures Abs(t, v) == Gather(t, AbsAll(Kids(t, |v.items|), v.items))
  {
    hide Gather, AbsAll, Kids;
  }

  /** Scalars and strings are themselves, a variant is the alternative it holds. */
  lemma ObjectOf(t: Ty, v: Val)
    requires WellTyped(t, v) && !IsList(t)
    ensures t.TInt? ==> Abs(t, v) == OInt(v.bits)
    ensures t.TBool? ==> Abs(t, v) == OBool(v.b)
    ensures t.TFloat? ==> Abs(t, v) == OFloat(v.xdr)
    ensures t.TString? ==> Abs(t, v) == OString(v.chars)
    ensures t.TMono? ==> Abs(t, v) == OMono
    ensures t.TVariant? ==> Abs(t, v) == OAlt(v.index, Abs(t.alts[v.index], v.content))
  {
  }

  /** Sequences and aggregates are their components in order, sets, multisets and multimaps
      what they are made of, and maps their entries. */
  lemma ListObject(t: Ty, v: Val) returns (objs: seq<Obj>)
    requires IsList(t) && WellTyped(t, v)
    ensures CanHave(t, |v.items|) && EachPartTyped(t, v.items) && |objs| == |v.items|
    ensures forall i :: 0 <= i < |objs| ==> objs[i] == Abs(PartType(t, i), v.items[i])
    ensures !t.TMap? && !(t.TCont? && !t.kind.Sequence?) ==> Abs(t, v) == OList(objs)
    ensures t.TCont? && t.kind.Set? ==> Abs(t, v) == OSet(set o | o in objs)
    ensures (t.TCont? && t.kind.Multiset?) || (t.TMap? && !t.unique) ==> Abs(t, v) == OBag(multiset(objs))
    ensures t.TMap? ==> Pairs(objs)
    ensures t.TMap? && t.unique ==> Abs(t, v).OMap? && FirstWins(Abs(t, v).entries, objs)
  {
    hide Abs, Gather, FirstWins;
    objs := PartObjects(t, v);
    if t.TMap? {
      EntriesArePairs(t, v, objs);
      if t.unique {
        FirstEntryWins(t, objs);
      } else {
        GatherBag(t, objs);
      }
    } else if t.TCont? && t.kind.Set? {
      GatherSet(t, objs);
    } else if t.TCont? && t.kind.Multiset? {
      GatherBag(t, objs);
    } else {
      GatherPlain(t, objs);
    }
  }

  lemma EntriesArePairs(t: Ty, v: Val, objs: seq<Obj>)
    requires t.TMap? && WellTyped(t, v) && CanHave(t, |v.items|) && EachPartTyped(t, v.items) && |objs| == |v.items|
    requires forall i :: 0 <= i < |objs| ==> objs[i] == Abs(PartType(t, i), v.items[i])
    ensures Pairs(objs)
  {
    hide Abs, Gather;
    forall i | 0 <= i < |objs| ensures objs[i].OList? && |objs[i].items| == 2 {
      var pair := PairObject(t.key, t.mapped, v.items[i]);
    }
  }

  lemma PairObject(kt: Ty, mt: Ty, v: Val) returns (o: Obj)
    requires WellTyped(TPair(kt, mt), v)
    ensures |v.items| == 2 && WellTyped(kt, v.items[0]) && WellTyped(mt, v.items[1])
    ensures o == Abs(TPair(kt, mt), v) == OList([Abs(kt, v.items[0]), Abs(mt, v.items[1])])
  {
    hide Abs, Gather;
    var t := TPair(kt, mt);
    var objs := PartObjects(t, v);
    GatherPlain(t, objs);
    assert PartType(t, 0) == kt && PartType(t, 1) == mt;
    assert objs == [Abs(kt, v.items[0]), Abs(mt, v.items[1])];
    o := Abs(t, v);
  }

  ghost predicate EachEntryTyped(kt: Ty, mt: Ty, entries: seq<Val>) {
    forall i :: 0 <= i < |entries| ==>
      && entries[i].VList? && |entries[i].items| == 2
      && WellTyped(kt, entries[i].items[0]) && WellTyped(mt, entries[i].items[1])
  }

  /** The key of entry `i` as written. */
  function KeyOf(kt: Ty, mt: Ty, entries: seq<Val>, i: nat): Obj
    requires EachEntryTyped(kt, mt, entries) && i < |entries|
  {
    Abs(kt, entries[i].items[0])
  }

  /** The map with the keys written, and for each the value written with it first. */
  ghost predicate IsMapOf(o: Obj, kt: Ty, mt: Ty, entries: seq<Val>)
    requires EachEntryTyped(kt, mt, entries)
  {
    && o.OMap?
    && (forall i :: 0 <= i < |entries| ==> KeyOf(kt, mt, entries, i) in o.entries)
    && (forall i :: 0 <= i < |entries|
                    && (forall j :: 0 <= j < i ==> KeyOf(kt, mt, entries, j) != KeyOf(kt, mt, entries, i)) ==>
          KeyOf(kt, mt, entries, i) in o.entries
          && o.entries[KeyOf(kt, mt, entries, i)] == Abs(mt, entries[i].items[1]))
    && (forall k :: k in o.entries ==> exists i :: 0 <= i < |entries| && KeyOf(kt, mt, entries, i) == k)
  }

  lemma SameEntries(o: Obj, kt: Ty, mt: Ty, entries: seq<Val>, objs: seq<Obj>)
    requires EachEntryTyped(kt, mt, entries) && |objs| == |entries| && Pairs(objs)
    requires forall i :: 0 <= i < |objs| ==>
               objs[i].items[0] == KeyOf(kt, mt, entries, i) && objs[i].items[1] == Abs(mt, entries[i].items[1])
    requires o.OMap? && FirstWins(o.entries, objs)
    ensures IsMapOf(o, kt, mt, entries)
  {
    hide Abs, WellTyped;
    forall i | 0 <= i < |entries| && forall j :: 0 <= j < i ==> KeyOf(kt, mt, entries, j) != KeyOf(kt, mt, entries, i)
      ensures KeyOf(kt, mt, entries, i) in o.entries
      ensures o.entries[KeyOf(kt, mt, entries, i)] == Abs(mt, entries[i].items[1])
    {
      assert FirstOfKey(objs, i);
    }
    forall k | k in o.entries ensures exists i :: 0 <= i < |entries| && KeyOf(kt, mt, entries, i) == k {
      assert HasKey(objs, k);
      var i :| 0 <= i < |objs| && objs[i].items[0] == k;
      assert KeyOf(kt, mt, entries, i) == k;
    }
  }

  lemma MapObject(kt: Ty, mt: Ty, v: Val)
    requires WellTyped(TMap(true, kt, mt), v)
    ensures EachEntryTyped(kt, mt, v.items) && IsMapOf(Abs(TMap(true, kt, mt), v), kt, mt, v.items)
  {
    hide Abs, FirstWins, IsMapOf;
    var t := TMap(true, kt, mt);
    var objs := ListObject(t, v);
    EntriesTyped(kt, mt, v);
    forall i | 0 <= i < |objs|
      ensures objs[i].items[0] == KeyOf(kt, mt, v.items, i) && objs[i].items[1] == Abs(mt, v.items[i].items[1])
    {
      var pair := PairObject(kt, mt, v.items[i]);
    }
    SameEntries(Abs(t, v), kt, mt, v.items, objs);
  }

  lemma EntriesTyped(kt: Ty, mt: Ty, v: Val)
    requires WellTyped(TMap(true, kt, mt), v)
    ensures EachEntryTyped(kt, mt, v.items)
  {
    ListTypedExactly(TMap(true, kt, mt), v);
    forall i | 0 <= i < |v.items|
      ensures v.items[i].VList? && |v.items[i].items| == 2
      ensures WellTyped(kt, v.items[i].items[0]) && WellTyped(mt, v.items[i].items[1])
    {
      var pair := PairObject(kt, mt, v.items[i]);
    }
  }

  /** A map read back: every key written is there and maps to the value written with it first,
      and no other key is there. */
  lemma MapReadsBack(be: Backend, w: Backend, kt: Ty, mt: Ty, v: Val, target: Obj, more: seq<Byte>)
    requires WellTyped(TMap(true, kt, mt), v)
    requires be.File? == w.File? || !HasString(TMap(true, kt, mt), v)
    requires be.File? || (Solid(w, TMap(true, kt, mt), v) && !Stale(TMap(true, kt, mt), target, v))
    ensures EachEntryTyped(kt, mt, v.items)
    ensures IsMapOf(ReadFrom(be, TMap(true, kt, mt), target, Encode(w, TMap(true, kt, mt), v) + more).obj,
                    kt, mt, v.items)
  {
    hide Abs, ReadFrom, Encode, Solid, Stale, HasString, IsMapOf, EachEntryTyped;
    BackendsInterchange(be, w, TMap(true, kt, mt), v, target, more);
    MapObject(kt, mt, v);
  }
}
