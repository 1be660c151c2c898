/** Containers that keep no order of their own, at any depth of a value. */
module CodecOrder {
  import opened Bytes
  import opened CodecTypes
  import opened Codec
  import opened CodecRoundTrip
  import opened CodecTheorems

  /** Containers that keep no order of their own. */
  predicate IsUnordered(t: Ty) {
    (t.TCont? && !t.kind.Sequence?) || t.TMap?
  }

  ghost predicate EachTyped(e: Ty, vs: seq<Val>) {
    forall i :: 0 <= i < |vs| ==> WellTyped(e, vs[i])
  }

  /** The components of a container all have one type. */
  lemma {:induction false} AbsEach(e: Ty, n: nat, vs: seq<Val>)
    requires AllWellTyped(Copies(e, n), vs)
    ensures forall i :: 0 <= i < |vs| ==> WellTyped(e, vs[i]) && AbsAll(Copies(e, n), vs)[i] == Abs(e, vs[i])
  {
    if n > 0 {
      var rest := vs[1..];
      assert Copies(e, n)[1..] == Copies(e, n - 1);
      AbsEach(e, n - 1, rest);
      forall i | 0 < i < |vs| ensures WellTyped(e, vs[i]) && AbsAll(Copies(e, n), vs)[i] == Abs(e, vs[i]) {
        assert vs[i] == rest[i - 1];
      }
    }
  }

  lemma EachElement(t: Ty, v: Val)
    requires (t.TCont? || t.TMap?) && WellTyped(t, v)
    ensures EachTyped(ElemType(t), v.items)
  {
    AbsEach(ElemType(t), |v.items|, v.items);
  }

  /** The sequence without its member at `j`. */
  function Without<X>(s: seq<X>, j: nat): (r: seq<X>)
    requires j < |s|
    ensures |r| == |s| - 1
    ensures forall i :: 0 <= i < |r| ==> r[i] == if i < j then s[i] else s[i + 1]
  {
    s[..j] + s[j + 1..]
  }

  lemma BagWithout<X>(s: seq<X>, j: nat)
    requires j < |s|
    ensures multiset(s) == multiset(Without(s, j)) + multiset{s[j]}
    ensures multiset(Without(s, j)) == multiset(s) - multiset{s[j]}
  {
    assert s == s[..j] + [s[j]] + s[j + 1..];
  }

  /** `u` is `v` as another machine might enumerate it: the elements of sets, multisets and
      maps are shuffled, and so are theirs, and those of every other component. */
  ghost predicate Reordered(t: Ty, v: Val, u: Val)
    requires WellTyped(t, v) && WellTyped(t, u)
    decreases v, 0
  {
    if IsUnordered(t) then
      EachElement(t, v);
      EachElement(t, u);
      Shuffled(ElemType(t), v.items, u.items)
    else if IsList(t) then
      |v.items| == |u.items| && AllReordered(Kids(t, |v.items|), v.items, u.items)
    else if t.TVariant? then
      v.index == u.index && Reordered(t.alts[v.index], v.content, u.content)
    else
      v == u
  }

  ghost predicate AllReordered(ts: seq<Ty>, vs: seq<Val>, us: seq<Val>)
    requires AllWellTyped(ts, vs) && AllWellTyped(ts, us)
    decreases vs, 1
  {
    ts == [] || (Reordered(ts[0], vs[0], us[0]) && AllReordered(ts[1..], vs[1..], us[1..]))
  }

  /** Each of `vs` has a counterpart of its own among `us`, and none is left over. */
  ghost predicate Shuffled(e: Ty, vs: seq<Val>, us: seq<Val>)
    requires EachTyped(e, vs) && EachTyped(e, us)
    decreases vs, 1
  {
    |vs| == |us| && (vs == [] || exists j :: 0 <= j < |us| && Matches(e, vs, us, j))
  }

  /** The first of `vs` has the `j`-th of `us` for a counterpart, and so on. */
  ghost predicate Matches(e: Ty, vs: seq<Val>, us: seq<Val>, j: nat)
    requires EachTyped(e, vs) && EachTyped(e, us) && vs != [] && j < |us|
    decreases vs, 0
  {
    Reordered(e, vs[0], us[j]) && Shuffled(e, vs[1..], Without(us, j))
  }

  /** The keys of every map with unique keys, at any depth, are different objects. */
  ghost predicate Keyed(t: Ty, v: Val)
    requires WellTyped(t, v)
    decreases v, 0
  {
    if IsList(t) then
      && (t.TMap? && t.unique ==> DistinctKeys(Visited(t, v)))
      && AllKeyed(Kids(t, |v.items|), v.items)
    else
      t.TVariant? ==> Keyed(t.alts[v.index], v.content)
  }

  ghost predicate AllKeyed(ts: seq<Ty>, vs: seq<Val>)
    requires AllWellTyped(ts, vs)
    decreases vs, 1
  {
    ts == [] || (Keyed(ts[0], vs[0]) && AllKeyed(ts[1..], vs[1..]))
  }

  /** The objects of a container's elements, in the order they are visited. */
  function Visited(t: Ty, v: Val): seq<Obj>
    requires (t.TCont? || t.TMap?) && WellTyped(t, v)
  {
    AbsAll(Kids(t, |v.items|), v.items)
  }

  lemma {:induction false} KeyedEach(e: Ty, n: nat, vs: seq<Val>)
    requires AllWellTyped(Copies(e, n), vs) && AllKeyed(Copies(e, n), vs)
    ensures forall i :: 0 <= i < |vs| ==> WellTyped(e, vs[i]) && Keyed(e, vs[i])
  {
    if n > 0 {
      assert Copies(e, n)[1..] == Copies(e, n - 1);
      KeyedEach(e, n - 1, vs[1..]);
      forall i | 0 < i < |vs| ensures WellTyped(e, vs[i]) && Keyed(e, vs[i]) {
        assert vs[i] == vs[1..][i - 1];
      }
    }
  }

  /** The objects of elements of one type. */
  function Objects(e: Ty, vs: seq<Val>): (objs: seq<Obj>)
    requires EachTyped(e, vs)
    ensures |objs| == |vs|
  {
    seq(|vs|, i requires 0 <= i < |vs| => Abs(e, vs[i]))
  }

  lemma VisitedObjects(t: Ty, v: Val)
    requires (t.TCont? || t.TMap?) && WellTyped(t, v)
    ensures EachTyped(ElemType(t), v.items) && Visited(t, v) == Objects(ElemType(t), v.items)
    ensures Abs(t, v) == Gather(t, Visited(t, v))
  {
    AbsEach(ElemType(t), |v.items|, v.items);
  }

  lemma SameMembers<X>(xs: seq<X>, ys: seq<X>)
    requires multiset(xs) == multiset(ys)
    ensures forall x :: x in xs <==> x in ys
  {
    forall x ensures x in xs <==> x in ys {
      assert x in multiset(xs) <==> x in multiset(ys);
    }
  }

  lemma EntriesCarryOver(t: Ty, xs: seq<Obj>, ys: seq<Obj>, k: Obj)
    requires t.TMap? && t.unique && DistinctKeys(xs) && DistinctKeys(ys)
    requires forall o :: o in xs ==> o in ys
    requires k in KeysOf(xs)
    ensures Gather(t, xs).OMap? && Gather(t, ys).OMap?
    ensures k in Gather(t, xs).entries && k in Gather(t, ys).entries
    ensures Gather(t, xs).entries[k] == Gather(t, ys).entries[k]
  {
    var i := KeyComesFrom(xs, k);
    assert xs[i] in ys;
    var j :| 0 <= j < |ys| && ys[j] == xs[i];
    GatherMapValues(t, xs, i);
    GatherMapValues(t, ys, j);
  }

  lemma SameMap(t: Ty, xs: seq<Obj>, ys: seq<Obj>)
    requires t.TMap? && t.unique && DistinctKeys(xs) && DistinctKeys(ys)
    requires forall o :: o in xs <==> o in ys
    ensures Gather(t, xs) == Gather(t, ys)
  {
    GatherMapKeys(t, xs);
    GatherMapKeys(t, ys);
    forall k | k in KeysOf(xs) ensures k in KeysOf(ys) && Gather(t, xs).entries[k] == Gather(t, ys).entries[k] {
      EntriesCarryOver(t, xs, ys, k);
    }
    forall k | k in KeysOf(ys) ensures k in KeysOf(xs) {
      EntriesCarryOver(t, ys, xs, k);
    }
    assert Gather(t, xs).entries == Gather(t, ys).entries;
  }

  lemma SameGathered(t: Ty, xs: seq<Obj>, ys: seq<Obj>)
    requires IsUnordered(t) && multiset(xs) == multiset(ys)
    requires t.TMap? && t.unique ==> DistinctKeys(xs) && DistinctKeys(ys)
    ensures Gather(t, xs) == Gather(t, ys)
  {
    SameMembers(xs, ys);
    if t.TMap? && t.unique {
      SameMap(t, xs, ys);
    } else if t.TCont? && t.kind.Set? {
      GatherSet(t, xs);
      GatherSet(t, ys);
    } else {
      GatherBag(t, xs);
      GatherBag(t, ys);
    }
  }

  /** Enumerating in the same order is a way of reordering. */
  lemma {:induction false} SameOrder(t: Ty, v: Val)
    requires WellTyped(t, v)
    ensures Reordered(t, v, v)
    decreases v, 0
  {
    if IsUnordered(t) {
      EachElement(t, v);
      EachInOrder(ElemType(t), v.items);
    } else if IsList(t) {
      AllInOrder(Kids(t, |v.items|), v.items);
    } else if t.TVariant? {
      SameOrder(t.alts[v.index], v.content);
    }
  }

  lemma {:induction false} AllInOrder(ts: seq<Ty>, vs: seq<Val>)
    requires AllWellTyped(ts, vs)
    ensures AllReordered(ts, vs, vs)
    decreases vs, 1
  {
    if ts != [] {
      SameOrder(ts[0], vs[0]);
      AllInOrder(ts[1..], vs[1..]);
    }
  }

  lemma {:induction false} EachInOrder(e: Ty, vs: seq<Val>)
    requires EachTyped(e, vs)
    ensures Shuffled(e, vs, vs)
    decreases vs, 1
  {
    if vs != [] {
      SameOrder(e, vs[0]);
      EachInOrder(e, vs[1..]);
      assert Without(vs, 0) == vs[1..];
      assert Matches(e, vs, vs, 0);
    }
  }

  lemma WithoutFirst<X>(vs: seq<X>)
    requires vs != []
    ensures Without(vs, 0) == vs[1..] && multiset(vs[1..]) == multiset(vs) - multiset{vs[0]}
  {
    BagWithout(vs, 0);
    assert Without(vs, 0) == vs[1..];
  }

  lemma FirstIn<X>(vs: seq<X>, us: seq<X>) returns (j: nat)
    requires vs != [] && multiset(vs) == multiset(us)
    ensures j < |us| && us[j] == vs[0] && multiset(vs[1..]) == multiset(Without(us, j))
  {
    WithoutFirst(vs);
    assert vs[0] in multiset(vs);
    j := Position(vs[0], us);
    BagWithout(us, j);
  }

  lemma Position<X>(x: X, s: seq<X>) returns (j: nat)
    requires x in multiset(s)
    ensures j < |s| && s[j] == x
  {
    j :| 0 <= j < |s| && s[j] == x;
  }

  lemma RestTyped(e: Ty, vs: seq<Val>, us: seq<Val>, j: nat)
    requires EachTyped(e, vs) && EachTyped(e, us) && vs != [] && j < |us|
    ensures WellTyped(e, vs[0]) && EachTyped(e, vs[1..]) && EachTyped(e, Without(us, j))
  {
    hide WellTyped;
  }

  /** So is every permutation of the elements of an unordered container. */
  lemma {:induction false} PermutedIsShuffled(e: Ty, vs: seq<Val>, us: seq<Val>)
    requires EachTyped(e, vs) && EachTyped(e, us) && multiset(vs) == multiset(us)
    ensures Shuffled(e, vs, us)
    decreases |vs|
  {
    hide WellTyped, EachTyped, Reordered;
    assert |multiset(vs)| == |vs| && |multiset(us)| == |us|;
    if vs != [] {
      assert vs[0] in multiset(vs);
      var j := FirstIn(vs, us);
      RestTyped(e, vs, us, j);
      SameOrder(e, vs[0]);
      PermutedIsShuffled(e, vs[1..], Without(us, j));
      assert Matches(e, vs, us, j);
    }
  }

  /** However often it is shuffled, and at whatever depth, a value is the same object. */
  lemma {:induction false} ReorderedIsSame(t: Ty, v: Val, u: Val)
    requires WellTyped(t, v) && WellTyped(t, u) && Reordered(t, v, u) && Keyed(t, v) && Keyed(t, u)
    ensures Abs(t, v) == Abs(t, u)
    decreases v, 0
  {
    if IsUnordered(t) {
      ShuffledIsSame(t, v, u);
    } else if IsList(t) {
      AllReorderedAreSame(Kids(t, |v.items|), v.items, u.items);
    } else if t.TVariant? {
      ReorderedIsSame(t.alts[v.index], v.content, u.content);
    }
  }

  lemma {:induction false} AllReorderedAreSame(ts: seq<Ty>, vs: seq<Val>, us: seq<Val>)
    requires AllWellTyped(ts, vs) && AllWellTyped(ts, us) && AllReordered(ts, vs, us)
    requires AllKeyed(ts, vs) && AllKeyed(ts, us)
    ensures AbsAll(ts, vs) == AbsAll(ts, us)
    decreases vs, 1
  {
    if ts != [] {
      ReorderedIsSame(ts[0], vs[0], us[0]);
      AllReorderedAreSame(ts[1..], vs[1..], us[1..]);
    }
  }

  lemma {:induction false} ShuffledIsSame(t: Ty, v: Val, u: Val)
    requires IsUnordered(t) && WellTyped(t, v) && WellTyped(t, u) && Reordered(t, v, u) && Keyed(t, v) && Keyed(t, u)
    ensures Abs(t, v) == Abs(t, u)
    decreases v.items, 2
  {
    var e := ElemType(t);
    VisitedObjects(t, v);
    VisitedObjects(t, u);
    KeyedEach(e, |v.items|, v.items);
    KeyedEach(e, |u.items|, u.items);
    assert EachKeyed(e, v.items) && EachKeyed(e, u.items);
    ShuffledBags(e, v.items, u.items);
    SameGathered(t, Visited(t, v), Visited(t, u));
  }

  ghost predicate EachKeyed(e: Ty, vs: seq<Val>)
    requires EachTyped(e, vs)
  {
    forall i :: 0 <= i < |vs| ==> Keyed(e, vs[i])
  }

  lemma WithoutOne(e: Ty, vs: seq<Val>, j: nat)
    requires EachTyped(e, vs) && EachKeyed(e, vs) && j < |vs|
    ensures WellTyped(e, vs[j]) && Keyed(e, vs[j])
    ensures EachTyped(e, Without(vs, j)) && EachKeyed(e, Without(vs, j))
    ensures j == 0 ==> Without(vs, j) == vs[1..]
    ensures Without(Objects(e, vs), j) == Objects(e, Without(vs, j))
  {
    hide Abs, WellTyped, Keyed;
  }

  lemma SameBags<X>(xs: seq<X>, i: nat, ys: seq<X>, j: nat)
    requires i < |xs| && j < |ys| && xs[i] == ys[j] && multiset(Without(xs, i)) == multiset(Without(ys, j))
    ensures multiset(xs) == multiset(ys)
  {
    BagWithout(xs, i);
    BagWithout(ys, j);
  }

  lemma {:induction false} ShuffledBags(e: Ty, vs: seq<Val>, us: seq<Val>)
    requires EachTyped(e, vs) && EachTyped(e, us) && Shuffled(e, vs, us) && EachKeyed(e, vs) && EachKeyed(e, us)
    ensures multiset(Objects(e, vs)) == multiset(Objects(e, us))
    decreases vs, 1
  {
    hide Abs, Reordered, Keyed, WellTyped, EachTyped, EachKeyed;
    if vs != [] {
      WithoutOne(e, vs, 0);
      var j := Counterpart(e, vs, us);
      WithoutOne(e, us, j);
      ReorderedIsSame(e, vs[0], us[j]);
      ShuffledBags(e, vs[1..], Without(us, j));
      SameBags(Objects(e, vs), 0, Objects(e, us), j);
    }
  }

  lemma Counterpart(e: Ty, vs: seq<Val>, us: seq<Val>) returns (j: nat)
    requires EachTyped(e, vs) && EachTyped(e, us) && Shuffled(e, vs, us) && vs != []
    ensures j < |us| && WellTyped(e, vs[0]) && WellTyped(e, us[j]) && Reordered(e, vs[0], us[j])
    ensures EachTyped(e, vs[1..]) && EachTyped(e, Without(us, j)) && Shuffled(e, vs[1..], Without(us, j))
  {
    hide Reordered, WellTyped;
    j :| 0 <= j < |us| && Matches(e, vs, us, j);
  }

  /** Two machines, of whatever byte orders, that enumerate the unordered containers of a
      value differently: from either encoding any backend reads the same object. */
  lemma OrderDoesNotMatter(be: Backend, w: Backend, w': Backend, t: Ty, v: Val, u: Val, target: Obj, target': Obj,
                           more: seq<Byte>, more': seq<Byte>)
    requires WellTyped(t, v) && WellTyped(t, u) && Reordered(t, v, u) && Keyed(t, v) && Keyed(t, u)
    requires be.File? == w.File? || !HasString(t, v)
    requires be.File? == w'.File? || !HasString(t, u)
    requires be.File? || (Solid(w, t, v) && Solid(w', t, u) && !Stale(t, target, v) && !Stale(t, target', u))
    ensures Succeeds(be, ReadFrom(be, t, target, Encode(w, t, v) + more), Abs(t, v), |Encode(w, t, v)|)
    ensures Succeeds(be, ReadFrom(be, t, target', Encode(w', t, u) + more'), Abs(t, v), |Encode(w', t, u)|)
  {
    BackendsInterchange(be, w, t, v, target, more);
    BackendsInterchange(be, w', t, u, target', more');
    ReorderedIsSame(t, v, u);
  }
}
