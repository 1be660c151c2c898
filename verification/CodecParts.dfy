/** The types found inside a type and the values found inside a value, and what the other
    codec modules say about whole values in terms of them. */
module CodecParts {
  import opened Bytes
  import opened EncodedInteger
  import opened CodecTypes
  import opened Codec
  import opened CodecRoundTrip
  import opened CodecTheorems
  import opened CodecWrites
  import opened CodecLengths
  import opened CodecOrder
  import opened CodecInterchange
  import opened CodecLayout
  import opened CodecValues

  // Types

  /** `u` is a type that `t` is made of. */
  predicate Direct(t: Ty, u: Ty) {
    match t
    case TPair(a, b) => u == a || u == b
    case TTuple(ts) => u in ts
    case TArray(e, _) => u == e
    case TBounded(e, _) => u == e
    case TCont(_, e) => u == e
    case TMap(_, k, m) => u == k || u == m
    case TVariant(ts) => u in ts
    case TOptional(e) => u == e
    case _ => false
  }

  /** From each type of the path to one that it is made of. */
  ghost predicate Leads(path: seq<Ty>) {
    path != [] && forall i :: 0 < i < |path| ==> Direct(path[i - 1], path[i])
  }

  /** `u` is found in `t`, at whatever depth; `t` itself is. */
  ghost predicate Within(t: Ty, u: Ty) {
    exists path :: Leads(path) && path[0] == t && path[|path| - 1] == u
  }

  lemma Deeper(t: Ty, u: Ty, path: seq<Ty>)
    requires Direct(t, u) && Leads(path) && path[0] == u
    ensures Leads([t] + path) && ([t] + path)[0] == t && ([t] + path)[|path|] == path[|path| - 1]
  {
    var longer := [t] + path;
    forall i | 0 < i < |longer| ensures Direct(longer[i - 1], longer[i]) {
      if i > 1 {
        assert longer[i - 1] == path[i - 2] && longer[i] == path[i - 1];
      }
    }
  }

  lemma Itself(t: Ty)
    ensures Leads([t]) && [t][0] == t && Within(t, t)
  {
    assert Leads([t]) && [t][|[t]| - 1] == t;
  }

  // Static lengths

  /** Types whose own encoding, apart from what they are made of, has one length. */
  predicate Fixed(t: Ty) {
    t.TInt? || t.TBool? || t.TFloat? || t.TPair? || t.TTuple? || t.TArray? || t.TBounded?
  }

  lemma {:induction false} MemberHasConst(ts: seq<Ty>, u: Ty)
    requires AllHaveConstStreamedLength(ts) && u in ts
    ensures HasConstStreamedLength(u)
  {
    if u != ts[0] {
      MemberHasConst(ts[1..], u);
    }
  }

  lemma {:induction false} SomeLacksConst(ts: seq<Ty>) returns (i: nat)
    requires !AllHaveConstStreamedLength(ts)
    ensures i < |ts| && !HasConstStreamedLength(ts[i])
  {
    i := 0;
    if HasConstStreamedLength(ts[0]) {
      i := SomeLacksConst(ts[1..]);
      i := i + 1;
    }
  }

  lemma InnermostConst(e: Ty)
    ensures HasConstStreamedLength(Innermost(e)) == HasConstStreamedLength(e)
  {
  }

  lemma ConstGoesDown(t: Ty, u: Ty)
    requires HasConstStreamedLength(t) && Direct(t, u)
    ensures HasConstStreamedLength(u)
  {
    if t.TTuple? {
      MemberHasConst(t.members, u);
    } else if t.TBounded? {
      InnermostConst(t.elem);
    }
  }

  lemma {:induction false} ConstAlong(path: seq<Ty>, i: nat)
    requires Leads(path) && HasConstStreamedLength(path[0]) && i < |path|
    ensures HasConstStreamedLength(path[i])
  {
    if i > 0 {
      ConstAlong(path, i - 1);
      ConstGoesDown(path[i - 1], path[i]);
    }
  }

  /** What a type without a static length is missing it for. */
  lemma {:induction false} Obstacle(t: Ty) returns (path: seq<Ty>)
    requires !HasConstStreamedLength(t)
    ensures Leads(path) && path[0] == t && !Fixed(path[|path| - 1])
  {
    if !Fixed(t) {
      Itself(t);
      path := [t];
    } else {
      var u := WithoutConst(t);
      var rest := Obstacle(u);
      Deeper(t, u, rest);
      path := [t] + rest;
    }
  }

  lemma WithoutConst(t: Ty) returns (u: Ty)
    requires !HasConstStreamedLength(t) && Fixed(t)
    ensures Direct(t, u) && u < t && !HasConstStreamedLength(u)
  {
    match t
    case TPair(a, b) =>
      u := if HasConstStreamedLength(a) then b else a;
    case TTuple(ts) =>
      var i := SomeLacksConst(ts);
      u := ts[i];
    case TArray(e, _) =>
      u := e;
    case TBounded(e, _) =>
      InnermostConst(e);
      u := e;
    case _ =>
      u := t;
  }

  /** A type has a static length exactly when every type found in it is a number, a bool, a
      pair, a tuple or an array. */
  lemma HasConstExactly(t: Ty)
    ensures HasConstStreamedLength(t) <==> forall u :: Within(t, u) ==> Fixed(u)
  {
    if HasConstStreamedLength(t) {
      forall u | Within(t, u) ensures Fixed(u) {
        var path :| Leads(path) && path[0] == t && path[|path| - 1] == u;
        ConstAlong(path, |path| - 1);
      }
    } else {
      var path := Obstacle(t);
      assert Within(t, path[|path| - 1]);
    }
  }

  // Types with an order

  /** Types whose own components are read into places of their own. */
  predicate KeepsOrder(be: Backend, t: Ty) {
    !t.TMap? && !(t.TCont? && !t.kind.Sequence?) && !((be.Gz? || be.Bz2?) && t.TVariant?)
  }

  lemma {:induction false} MemberOrdered(be: Backend, ts: seq<Ty>, u: Ty)
    requires AllOrdered(be, ts) && u in ts
    ensures Ordered(be, u)
  {
    if u != ts[0] {
      MemberOrdered(be, ts[1..], u);
    }
  }

  lemma {:induction false} SomeUnordered(be: Backend, ts: seq<Ty>) returns (i: nat)
    requires !AllOrdered(be, ts)
    ensures i < |ts| && !Ordered(be, ts[i])
  {
    i := 0;
    if Ordered(be, ts[0]) {
      i := SomeUnordered(be, ts[1..]);
      i := i + 1;
    }
  }

  lemma OrderGoesDown(be: Backend, t: Ty, u: Ty)
    requires Ordered(be, t) && Direct(t, u)
    ensures Ordered(be, u)
  {
    if t.TTuple? {
      MemberOrdered(be, t.members, u);
    } else if t.TVariant? {
      MemberOrdered(be, t.alts, u);
    }
  }

  lemma {:induction false} OrderAlong(be: Backend, path: seq<Ty>, i: nat)
    requires Leads(path) && Ordered(be, path[0]) && i < |path|
    ensures Ordered(be, path[i])
  {
    if i > 0 {
      OrderAlong(be, path, i - 1);
      OrderGoesDown(be, path[i - 1], path[i]);
    }
  }

  lemma {:induction false} Disorder(be: Backend, t: Ty) returns (path: seq<Ty>)
    requires !Ordered(be, t)
    ensures Leads(path) && path[0] == t && !KeepsOrder(be, path[|path| - 1])
  {
    if !KeepsOrder(be, t) {
      Itself(t);
      path := [t];
    } else {
      var u := WithoutOrder(be, t);
      var rest := Disorder(be, u);
      Deeper(t, u, rest);
      path := [t] + rest;
    }
  }

  lemma WithoutOrder(be: Backend, t: Ty) returns (u: Ty)
    requires !Ordered(be, t) && KeepsOrder(be, t)
    ensures Direct(t, u) && u < t && !Ordered(be, u)
  {
    match t
    case TPair(a, b) =>
      u := if Ordered(be, a) then b else a;
    case TTuple(ts) =>
      var i := SomeUnordered(be, ts);
      u := ts[i];
    case TVariant(ts) =>
      var i := SomeUnordered(be, ts);
      u := ts[i];
    case TArray(e, _) =>
      u := e;
    case TBounded(e, _) =>
      u := e;
    case TCont(_, e) =>
      u := e;
    case TOptional(e) =>
      u := e;
    case _ =>
      u := t;
  }

  /** The types between FileIO and the others for which the converse is proved: those in which
      no set, multiset or map is found, nor for GZIO and BZ2IO a variant. */
  lemma OrderedExactly(be: Backend, t: Ty)
    ensures Ordered(be, t) <==> forall u :: Within(t, u) ==> KeepsOrder(be, u)
  {
    if Ordered(be, t) {
      forall u | Within(t, u) ensures KeepsOrder(be, u) {
        var path :| Leads(path) && path[0] == t && path[|path| - 1] == u;
        OrderAlong(be, path, |path| - 1);
      }
    } else {
      var path := Disorder(be, t);
      assert Within(t, path[|path| - 1]);
    }
  }

  // Values

  /** A value and its type. */
  datatype Part = Part(t: Ty, v: Val)

  /** A value, and all that it is made of, at whatever depth, as often as they occur. */
  function Parts(t: Ty, v: Val): seq<Part>
    requires WellTyped(t, v)
    decreases v, 0
  {
    [Part(t, v)] + (if IsList(t) then AllParts(Kids(t, |v.items|), v.items)
                    else if t.TVariant? then Parts(t.alts[v.index], v.content)
                    else [])
  }

  function AllParts(ts: seq<Ty>, vs: seq<Val>): seq<Part>
    requires AllWellTyped(ts, vs)
    decreases vs, 1
  {
    if ts == [] then [] else Parts(ts[0], vs[0]) + AllParts(ts[1..], vs[1..])
  }

  ghost predicate SomeString(parts: seq<Part>) {
    exists i :: 0 <= i < |parts| && parts[i].t.TString?
  }

  ghost predicate ShortStrings(parts: seq<Part>) {
    forall i :: 0 <= i < |parts| && parts[i].t.TString? ==> parts[i].v.VString? && |parts[i].v.chars| < Pow256(6)
  }

  /** Some optional has no value. */
  ghost predicate SomeEmpty(parts: seq<Part>) {
    exists i :: 0 <= i < |parts| && parts[i].t.TOptional? && parts[i].v == VList([])
  }

  function BoundedArrays(parts: seq<Part>): nat {
    if parts == [] then 0 else (if parts[0].t.TBounded? then 1 else 0) + BoundedArrays(parts[1..])
  }

  function Optionals(parts: seq<Part>): nat {
    if parts == [] then 0 else (if parts[0].t.TOptional? then 1 else 0) + Optionals(parts[1..])
  }

  lemma {:induction false} Joined(a: seq<Part>, b: seq<Part>)
    ensures BoundedArrays(a + b) == BoundedArrays(a) + BoundedArrays(b)
    ensures Optionals(a + b) == Optionals(a) + Optionals(b)
  {
    if a == [] {
      assert a + b == b;
    } else {
      Joined(a[1..], b);
      assert (a + b)[1..] == a[1..] + b;
    }
  }

  lemma JoinedStrings(a: seq<Part>, b: seq<Part>)
    ensures SomeString(a + b) <==> SomeString(a) || SomeString(b)
    ensures ShortStrings(a + b) <==> ShortStrings(a) && ShortStrings(b)
    ensures SomeEmpty(a + b) <==> SomeEmpty(a) || SomeEmpty(b)
  {
    var all := a + b;
    assert forall i :: 0 <= i < |a| ==> all[i] == a[i];
    assert forall i :: 0 <= i < |b| ==> all[|a| + i] == b[i];
    assert forall i :: |a| <= i < |all| ==> all[i] == b[i - |a|];
  }

  lemma OnePart(p: Part)
    ensures SomeString([p]) <==> p.t.TString?
    ensures ShortStrings([p]) <==> (p.t.TString? ==> p.v.VString? && |p.v.chars| < Pow256(6))
    ensures SomeEmpty([p]) <==> p.t.TOptional? && p.v == VList([])
    ensures BoundedArrays([p]) == (if p.t.TBounded? then 1 else 0)
    ensures Optionals([p]) == (if p.t.TOptional? then 1 else 0)
  {
    assert [p][0] == p;
    assert [p][1..] == [];
  }

  /** A value holds a string, is within FileIO's reach, or lacks an optional exactly if one of
      its parts does, and StreamedLength omits eight bytes for each bounded array found in it
      and one for each optional. */
  lemma {:induction false} PartsTell(t: Ty, v: Val)
    requires WellTyped(t, v)
    ensures HasString(t, v) <==> SomeString(Parts(t, v))
    ensures StringsFit(t, v) <==> ShortStrings(Parts(t, v))
    ensures Lacking(t, v) <==> SomeEmpty(Parts(t, v))
    ensures Omitted(t, v) == 8 * BoundedArrays(Parts(t, v)) + Optionals(Parts(t, v))
    decreases v, 0
  {
    hide SomeString, ShortStrings, SomeEmpty, BoundedArrays, Optionals, Pow256, Kids;
    OnePart(Part(t, v));
    NoParts();
    if IsList(t) {
      var rest := AllParts(Kids(t, |v.items|), v.items);
      AllPartsTell(Kids(t, |v.items|), v.items);
      Joined([Part(t, v)], rest);
      JoinedStrings([Part(t, v)], rest);
    } else if t.TVariant? {
      var rest := Parts(t.alts[v.index], v.content);
      PartsTell(t.alts[v.index], v.content);
      Joined([Part(t, v)], rest);
      JoinedStrings([Part(t, v)], rest);
    } else {
      assert [Part(t, v)] + [] == [Part(t, v)];
    }
  }

  lemma NoParts()
    ensures !SomeString([]) && ShortStrings([]) && !SomeEmpty([]) && BoundedArrays([]) == 0 && Optionals([]) == 0
  {
  }

  lemma {:induction false} AllPartsTell(ts: seq<Ty>, vs: seq<Val>)
    requires AllWellTyped(ts, vs)
    ensures AnyString(ts, vs) <==> SomeString(AllParts(ts, vs))
    ensures AllStringsFit(ts, vs) <==> ShortStrings(AllParts(ts, vs))
    ensures AnyLacking(ts, vs) <==> SomeEmpty(AllParts(ts, vs))
    ensures AllOmitted(ts, vs) == 8 * BoundedArrays(AllParts(ts, vs)) + Optionals(AllParts(ts, vs))
    decreases vs, 1
  {
    hide SomeString, ShortStrings, SomeEmpty, BoundedArrays, Optionals, Parts, HasString, StringsFit, Lacking, Omitted;
    if ts == [] {
      NoParts();
    } else {
      PartsTell(ts[0], vs[0]);
      AllPartsTell(ts[1..], vs[1..]);
      Joined(Parts(ts[0], vs[0]), AllParts(ts[1..], vs[1..]));
      JoinedStrings(Parts(ts[0], vs[0]), AllParts(ts[1..], vs[1..]));
    }
  }

  // The two announced lengths

  lemma {:induction false} StaticOmits(t: Ty, v: Val)
    requires WellTyped(t, v) && HasConstStreamedLength(t)
    ensures !Lacking(t, v) && Omitted(t, v) == 8 * Arrays(t)
    decreases v, 0
  {
    hide Kids;
    match t
    case TPair(a, b) => PairOmits(a, b, v);
    case TTuple(ts) => MembersOmit(t, v);
    case TArray(_, _) => ArrayOmits(t, v);
    case TBounded(_, _) => ArrayOmits(t, v);
    case _ =>
  }

  lemma {:induction false} PairOmits(a: Ty, b: Ty, v: Val)
    requires WellTyped(TPair(a, b), v) && HasConstStreamedLength(a) && HasConstStreamedLength(b)
    ensures !Lacking(TPair(a, b), v) && Omitted(TPair(a, b), v) == 8 * (Arrays(a) + Arrays(b))
    decreases v.items, 2
  {
    assert [a, b][1..] == [b] && [b][1..] == [];
    KidsHaveConst(TPair(a, b), 2);
    AllStaticOmit([a, b], v.items);
    assert TotalArrays([a, b]) == Arrays(a) + TotalArrays([b]) && TotalArrays([b]) == Arrays(b) + TotalArrays([]);
  }

  lemma {:induction false} MembersOmit(t: Ty, v: Val)
    requires t.TTuple? && WellTyped(t, v) && HasConstStreamedLength(t)
    ensures !Lacking(t, v) && Omitted(t, v) == 8 * Arrays(t)
    decreases v.items, 2
  {
    AllStaticOmit(t.members, v.items);
  }

  lemma {:induction false} AllStaticOmit(ts: seq<Ty>, vs: seq<Val>)
    requires AllWellTyped(ts, vs) && AllHaveConstStreamedLength(ts)
    ensures !AnyLacking(ts, vs) && AllOmitted(ts, vs) == 8 * TotalArrays(ts)
    decreases vs, 1
  {
    hide HasConstStreamedLength, Arrays, WellTyped, Lacking, Omitted;
    if ts != [] {
      StaticOmits(ts[0], vs[0]);
      AllStaticOmit(ts[1..], vs[1..]);
    }
  }

  lemma {:induction false} ArrayOmits(t: Ty, v: Val)
    requires (t.TArray? || t.TBounded?) && WellTyped(t, v) && HasConstStreamedLength(t)
    ensures !Lacking(t, v) && Omitted(t, v) == 8 * Arrays(t)
    decreases v.items, 2
  {
    ArrayAddsUp(t);
    CopiesOmit(t.elem, t.n, v.items);
  }

  lemma {:induction false} CopiesOmit(e: Ty, n: nat, vs: seq<Val>)
    requires HasConstStreamedLength(e) && AllWellTyped(Copies(e, n), vs)
    ensures !AnyLacking(Copies(e, n), vs) && AllOmitted(Copies(e, n), vs) == 8 * (n * Arrays(e))
    decreases vs, 1
  {
    hide HasConstStreamedLength, Arrays, WellTyped, Lacking, Omitted;
    if n > 0 {
      assert Copies(e, n)[1..] == Copies(e, n - 1);
      StaticOmits(e, vs[0]);
      CopiesOmit(e, n - 1, vs[1..]);
      assert n * Arrays(e) == Arrays(e) + (n - 1) * Arrays(e);
    }
  }

  /** Where there is a static length it is what StreamedLength computes of every value. */
  lemma StaticIsStreamed(t: Ty, v: Val)
    requires WellTyped(t, v) && HasConstStreamedLength(t)
    ensures StreamedLength(t, v) == Some(ConstStreamedLength(t))
    ensures BoundedArrays(Parts(t, v)) == Arrays(t) && Optionals(Parts(t, v)) == 0
  {
    hide Encode, Omitted, Lacking, StreamedLength, ConstStreamedLength, Parts, Arrays;
    var w := Descriptor(Little);
    StaticOmits(t, v);
    LengthIsShortBy(w, t, v);
    StaticLengthIsShortBy(w, t, v);
    PartsTell(t, v);
    NoOptionals(t, v);
  }

  lemma {:induction false} NoOptionals(t: Ty, v: Val)
    requires WellTyped(t, v) && HasConstStreamedLength(t)
    ensures Optionals(Parts(t, v)) == 0
    decreases v, 0
  {
    hide Optionals, Kids, HasConstStreamedLength;
    OnePart(Part(t, v));
    NoParts();
    if IsList(t) {
      KidsHaveConst(t, |v.items|);
      NoneOptional(Kids(t, |v.items|), v.items);
      Joined([Part(t, v)], AllParts(Kids(t, |v.items|), v.items));
    } else {
      NotVariant(t);
      assert [Part(t, v)] + [] == [Part(t, v)];
    }
    NotVariant(t);
  }

  lemma NotVariant(t: Ty)
    requires HasConstStreamedLength(t)
    ensures !t.TVariant? && !t.TOptional?
  {
  }

  lemma KidsHaveConst(t: Ty, n: nat)
    requires IsList(t) && HasConstStreamedLength(t)
    ensures AllHaveConstStreamedLength(Kids(t, n))
  {
    match t
    case TPair(a, b) => assert [a, b][1..] == [b] && [b][1..] == [];
    case TTuple(_) =>
    case TArray(e, k) => CopiesHaveConst(e, k);
    case TBounded(e, k) =>
      InnermostConst(e);
      CopiesHaveConst(e, k);
    case _ =>
  }

  lemma {:induction false} CopiesHaveConst(e: Ty, n: nat)
    requires HasConstStreamedLength(e)
    ensures AllHaveConstStreamedLength(Copies(e, n))
  {
    if n > 0 {
      CopiesHaveConst(e, n - 1);
      assert Copies(e, n)[1..] == Copies(e, n - 1);
    }
  }

  lemma {:induction false} NoneOptional(ts: seq<Ty>, vs: seq<Val>)
    requires AllWellTyped(ts, vs) && AllHaveConstStreamedLength(ts)
    ensures Optionals(AllParts(ts, vs)) == 0
    decreases vs, 1
  {
    hide Optionals, Parts, HasConstStreamedLength, WellTyped;
    if ts == [] {
      NoParts();
    } else {
      NoOptionals(ts[0], vs[0]);
      NoneOptional(ts[1..], vs[1..]);
      Joined(Parts(ts[0], vs[0]), AllParts(ts[1..], vs[1..]));
    }
  }

  // Stale targets

  /** Along the path of component numbers, through aggregates whose target has as many as the
      value, an optional of the target has something where the value's has nothing. */
  ghost predicate StaleAt(t: Ty, target: Obj, v: Val, path: seq<nat>)
    requires WellTyped(t, v)
    decreases |path|
  {
    if path == [] then
      t.TOptional? && v.items == [] && target != OList([])
    else
      && IsList(t) && !t.TCont? && !t.TMap? && target.OList? && |target.items| == |v.items| && path[0] < |v.items|
      && (t.TTuple? ==> path[0] < |t.members|) && WellTyped(PartType(t, path[0]), v.items[path[0]])
      && StaleAt(PartType(t, path[0]), target.items[path[0]], v.items[path[0]], path[1..])
  }

  lemma {:induction false} AnyStaleAt(ts: seq<Ty>, targets: seq<Obj>, vs: seq<Val>, i: nat)
    requires AllWellTyped(ts, vs) && |targets| == |ts| && i < |ts| && PairwiseTyped(ts, vs)
    requires Stale(ts[i], targets[i], vs[i])
    ensures AnyStale(ts, targets, vs)
  {
    hide Stale, WellTyped;
    if i > 0 {
      AnyStaleAt(ts[1..], targets[1..], vs[1..], i - 1);
    }
  }

  lemma {:induction false} StaleOne(ts: seq<Ty>, targets: seq<Obj>, vs: seq<Val>) returns (i: nat)
    requires AllWellTyped(ts, vs) && |targets| == |ts| && PairwiseTyped(ts, vs) && AnyStale(ts, targets, vs)
    ensures i < |ts| && Stale(ts[i], targets[i], vs[i])
  {
    hide Stale, WellTyped;
    i := 0;
    if !Stale(ts[0], targets[0], vs[0]) {
      i := StaleOne(ts[1..], targets[1..], vs[1..]);
      i := i + 1;
    }
  }

  lemma {:induction false} PathIsStale(t: Ty, target: Obj, v: Val, path: seq<nat>)
    requires WellTyped(t, v) && StaleAt(t, target, v, path)
    ensures Stale(t, target, v)
    decreases |path|
  {
    hide Kids;
    if path != [] {
      var i := path[0];
      PathIsStale(PartType(t, i), target.items[i], v.items[i], path[1..]);
      KidsTyped(t, v);
      AnyStaleAt(Kids(t, |v.items|), target.items, v.items, i);
    }
  }

  lemma {:induction false} StalePath(t: Ty, target: Obj, v: Val) returns (path: seq<nat>)
    requires WellTyped(t, v) && Stale(t, target, v)
    ensures StaleAt(t, target, v, path)
    decreases v, 0
  {
    hide Kids, Default, Defaults;
    path := [];
    if t.TVariant? {
      DefaultIsNotStale(t.alts[v.index], v.content);
    } else if !(t.TOptional? && v.items == []) {
      path := StaleComponent(t, target, v);
    }
  }

  lemma {:induction false} StaleComponent(t: Ty, target: Obj, v: Val) returns (path: seq<nat>)
    requires IsList(t) && WellTyped(t, v) && Stale(t, target, v) && !(t.TOptional? && v.items == [])
    ensures StaleAt(t, target, v, path)
    decreases v.items, 2
  {
    hide Kids, Default, Defaults, StaleAt, WellTyped, AllWellTyped;
    ListTypedExactly(t, v);
    KidsTyped(t, v);
    var vs := v.items;
    var ts := Kids(t, |vs|);
    var targets := KidTargets(t, target, ts);
    StaleInside(t, target, v);
    if targets == Defaults(ts) {
      DefaultsAreNotStale(ts, vs);
      assert false;
    } else {
      var i := StaleOne(ts, targets, vs);
      var rest := StalePath(ts[i], targets[i], vs[i]);
      StepInto(t, target, v, i, rest);
      path := [i] + rest;
    }
  }

  lemma StaleInside(t: Ty, target: Obj, v: Val)
    requires IsList(t) && WellTyped(t, v) && Stale(t, target, v) && !(t.TOptional? && v.items == [])
    ensures var ts := Kids(t, |v.items|); AnyStale(ts, KidTargets(t, target, ts), v.items)
  {
    hide Kids, KidTargets;
  }

  lemma StepInto(t: Ty, target: Obj, v: Val, i: nat, rest: seq<nat>)
    requires IsList(t) && !t.TCont? && !t.TMap? && WellTyped(t, v) && i < |v.items|
    requires target.OList? && |target.items| == |v.items| && CanHave(t, |v.items|)
    requires WellTyped(PartType(t, i), v.items[i]) && StaleAt(PartType(t, i), target.items[i], v.items[i], rest)
    ensures StaleAt(t, target, v, [i] + rest)
  {
    hide WellTyped, Kids;
    assert ([i] + rest)[1..] == rest;
  }

  ghost predicate HasStalePath(t: Ty, target: Obj, v: Val)
    requires WellTyped(t, v)
  {
    exists path :: StaleAt(t, target, v, path)
  }

  lemma PathFound(t: Ty, target: Obj, v: Val, path: seq<nat>)
    requires WellTyped(t, v) && StaleAt(t, target, v, path)
    ensures HasStalePath(t, target, v)
  {
    hide StaleAt, WellTyped;
  }

  lemma FoundIsStale(t: Ty, target: Obj, v: Val)
    requires WellTyped(t, v) && HasStalePath(t, target, v)
    ensures Stale(t, target, v)
  {
    hide Stale, StaleAt, WellTyped;
    var path :| StaleAt(t, target, v, path);
    PathIsStale(t, target, v, path);
  }

  /** A target is stale exactly if such a path leads to an optional that is. */
  lemma StaleExactly(t: Ty, target: Obj, v: Val)
    requires WellTyped(t, v)
    ensures Stale(t, target, v) <==> HasStalePath(t, target, v)
  {
    hide Stale, StaleAt, WellTyped, HasStalePath;
    if Stale(t, target, v) {
      var path := StalePath(t, target, v);
      PathFound(t, target, v, path);
    } else if HasStalePath(t, target, v) {
      FoundIsStale(t, target, v);
    }
  }

  // Other orders

  lemma {:induction false} AllReorderedAt(ts: seq<Ty>, vs: seq<Val>, us: seq<Val>)
    requires AllWellTyped(ts, vs) && AllWellTyped(ts, us) && PairwiseTyped(ts, vs) && PairwiseTyped(ts, us)
    ensures AllReordered(ts, vs, us) <==> forall i :: 0 <= i < |ts| ==> Reordered(ts[i], vs[i], us[i])
  {
    hide Reordered, WellTyped;
    if ts != [] {
      AllReorderedAt(ts[1..], vs[1..], us[1..]);
      if AllReordered(ts, vs, us) {
        forall i | 0 <= i < |ts| ensures Reordered(ts[i], vs[i], us[i]) {
          assert i > 0 ==> ts[i] == ts[1..][i - 1] && vs[i] == vs[1..][i - 1] && us[i] == us[1..][i - 1];
        }
      }
      if forall i :: 0 <= i < |ts| ==> Reordered(ts[i], vs[i], us[i]) {
        forall i | 0 <= i < |ts[1..]| ensures Reordered(ts[1..][i], vs[1..][i], us[1..][i]) {
          assert ts[1..][i] == ts[i + 1] && vs[1..][i] == vs[i + 1] && us[1..][i] == us[i + 1];
        }
      }
    }
  }

  /** What another enumeration of an aggregate or sequence is: another enumeration of each of
      its components, in place. */
  lemma ReorderedInside(t: Ty, v: Val, u: Val)
    requires IsList(t) && !IsUnordered(t) && WellTyped(t, v) && WellTyped(t, u)
    ensures CanHave(t, |v.items|) && CanHave(t, |u.items|) && EachPartTyped(t, v.items) && EachPartTyped(t, u.items)
    ensures Reordered(t, v, u) <==>
              |v.items| == |u.items|
              && forall i :: 0 <= i < |v.items| ==> Reordered(PartType(t, i), v.items[i], u.items[i])
  {
    hide WellTyped, Kids, AllReordered;
    ListTypedExactly(t, v);
    ListTypedExactly(t, u);
    KidsTyped(t, v);
    KidsTyped(t, u);
    if |v.items| == |u.items| {
      AllReorderedAt(Kids(t, |v.items|), v.items, u.items);
    }
  }

  /** Of any other value: of a variant, of its content, and of the rest itself. */
  lemma ReorderedOther(t: Ty, v: Val, u: Val)
    requires !IsList(t) && WellTyped(t, v) && WellTyped(t, u)
    ensures t.TVariant? ==>
              (Reordered(t, v, u) <==> v.index == u.index && Reordered(t.alts[v.index], v.content, u.content))
    ensures !t.TVariant? ==> (Reordered(t, v, u) <==> v == u)
  {
  }

  /** The elements of `us` are other enumerations of those of `ws`, in place. */
  ghost predicate InPlace(e: Ty, ws: seq<Val>, us: seq<Val>)
    requires EachTyped(e, ws) && EachTyped(e, us)
  {
    |ws| == |us| && forall i :: 0 <= i < |ws| ==> Reordered(e, ws[i], us[i])
  }

  lemma InPlaceWithout(e: Ty, ws: seq<Val>, us: seq<Val>, j: nat)
    requires EachTyped(e, ws) && EachTyped(e, us) && InPlace(e, ws, us) && j < |ws|
    ensures EachTyped(e, Without(ws, j)) && EachTyped(e, Without(us, j))
    ensures InPlace(e, Without(ws, j), Without(us, j))
  {
    hide Reordered, WellTyped;
  }

  /** And of a set, multiset or map: its elements in any order, each of them enumerated in any
      way. */
  lemma {:induction false} ShuffledHowever(e: Ty, vs: seq<Val>, ws: seq<Val>, us: seq<Val>)
    requires EachTyped(e, vs) && EachTyped(e, ws) && EachTyped(e, us)
    requires multiset(vs) == multiset(ws) && InPlace(e, ws, us)
    ensures Shuffled(e, vs, us)
    decreases |vs|
  {
    hide WellTyped, EachTyped, Reordered, InPlace;
    assert |multiset(vs)| == |vs| && |multiset(ws)| == |ws|;
    SameLength(e, ws, us);
    if vs != [] {
      var j := FirstIn(vs, ws);
      RestTyped(e, vs, ws, j);
      InPlaceWithout(e, ws, us, j);
      InPlaceAt(e, ws, us, j);
      ShuffledHowever(e, vs[1..], Without(ws, j), Without(us, j));
      assert Matches(e, vs, us, j);
    }
  }

  lemma SameLength(e: Ty, ws: seq<Val>, us: seq<Val>)
    requires EachTyped(e, ws) && EachTyped(e, us) && InPlace(e, ws, us)
    ensures |ws| == |us|
  {
  }

  lemma InPlaceAt(e: Ty, ws: seq<Val>, us: seq<Val>, j: nat)
    requires EachTyped(e, ws) && EachTyped(e, us) && InPlace(e, ws, us) && j < |ws|
    ensures WellTyped(e, ws[j]) && WellTyped(e, us[j]) && Reordered(e, ws[j], us[j])
  {
  }

  // Keys

  /** The keys of a map, as they were written, are different objects. */
  ghost predicate KeysDiffer(part: Part) {
    part.t.TMap? && part.t.unique ==>
      && part.v.VList? && EachEntryTyped(part.t.key, part.t.mapped, part.v.items)
      && forall i, j :: 0 <= i < j < |part.v.items| ==>
           KeyOf(part.t.key, part.t.mapped, part.v.items, i) != KeyOf(part.t.key, part.t.mapped, part.v.items, j)
  }

  ghost predicate AllKeysDiffer(parts: seq<Part>) {
    forall i :: 0 <= i < |parts| ==> KeysDiffer(parts[i])
  }

  lemma JoinedKeys(a: seq<Part>, b: seq<Part>)
    ensures AllKeysDiffer(a + b) <==> AllKeysDiffer(a) && AllKeysDiffer(b)
  {
    hide KeysDiffer;
    var all := a + b;
    assert forall i :: 0 <= i < |a| ==> all[i] == a[i];
    assert forall i :: 0 <= i < |b| ==> all[|a| + i] == b[i];
    assert forall i :: |a| <= i < |all| ==> all[i] == b[i - |a|];
  }

  lemma KeysAreKeys(t: Ty, v: Val)
    requires t.TMap? && t.unique && WellTyped(t, v)
    ensures DistinctKeys(Visited(t, v)) <==> KeysDiffer(Part(t, v))
  {
    hide Abs, AbsAll;
    VisitedObjects(t, v);
    EntriesTyped(t.key, t.mapped, v);
    var vs, objs := v.items, Visited(t, v);
    forall i | 0 <= i < |vs| ensures Key(objs[i]) == KeyOf(t.key, t.mapped, vs, i) {
      var pair := PairObject(t.key, t.mapped, vs[i]);
    }
  }

  /** A value can be enumerated in other orders without harm exactly if in every map with
      unique keys that is found in it the keys differ. */
  lemma {:induction false} KeyedExactly(t: Ty, v: Val)
    requires WellTyped(t, v)
    ensures Keyed(t, v) <==> AllKeysDiffer(Parts(t, v))
    decreases v, 0
  {
    hide AllKeysDiffer, KeysDiffer, DistinctKeys, Kids, Visited;
    KeysOfOne(Part(t, v));
    if IsList(t) {
      if t.TMap? && t.unique {
        KeysAreKeys(t, v);
      } else {
        NoMap(Part(t, v));
      }
      AllKeyedExactly(Kids(t, |v.items|), v.items);
      JoinedKeys([Part(t, v)], AllParts(Kids(t, |v.items|), v.items));
    } else {
      NoMap(Part(t, v));
      if t.TVariant? {
        KeyedExactly(t.alts[v.index], v.content);
        JoinedKeys([Part(t, v)], Parts(t.alts[v.index], v.content));
      } else {
        assert [Part(t, v)] + [] == [Part(t, v)];
      }
    }
  }

  lemma NoMap(part: Part)
    requires !(part.t.TMap? && part.t.unique)
    ensures KeysDiffer(part)
  {
  }

  lemma KeysOfOne(part: Part)
    ensures AllKeysDiffer([part]) <==> KeysDiffer(part)
  {
    hide KeysDiffer;
    assert [part][0] == part;
  }

  lemma {:induction false} AllKeyedExactly(ts: seq<Ty>, vs: seq<Val>)
    requires AllWellTyped(ts, vs)
    ensures AllKeyed(ts, vs) <==> AllKeysDiffer(AllParts(ts, vs))
    decreases vs, 1
  {
    hide Parts, Keyed, KeysDiffer, WellTyped;
    if ts == [] {
      assert AllParts(ts, vs) == [];
    } else {
      KeyedExactly(ts[0], vs[0]);
      AllKeyedExactly(ts[1..], vs[1..]);
      JoinedKeys(Parts(ts[0], vs[0]), AllParts(ts[1..], vs[1..]));
    }
  }
}
