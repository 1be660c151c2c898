/** The lengths that IOUtils::StreamedLength and ConstStreamedLength announce, against the
    bytes that are written. */
module CodecLengths {
  import opened Bytes
  import opened EncodedInteger
  import opened CodecTypes
  import opened Codec
  import opened CodecRoundTrip
  import opened CodecTheorems
  import opened CodecWrites

  // IOUtils::StreamedLength

  function Plus(a: Option<nat>, b: Option<nat>): Option<nat> {
    if a.Some? && b.Some? then Some(a.value + b.value) else None
  }

  /** What precedes the components of a list type, as StreamedLength counts it: it knows
      the count of a container, but neither that of a bounded array nor an optional's flag. */
  function CountedHead(t: Ty, n: nat): nat {
    if t.TCont? || t.TMap? then 1 + ByteLength(n) else 0
  }

  function ScalarLength(t: Ty, v: Val): nat
    requires WellTyped(t, v) && !IsList(t) && !t.TVariant?
  {
    match t
    case TInt(width) => width
    case TBool => 1
    case TFloat(width) => width
    case TString => 1 + ByteLength(|v.chars|) + |v.chars|
    case TMono => 0
  }

  /** StreamedLength; None where value() of an empty optional throws. */
  function StreamedLength(t: Ty, v: Val): Option<nat>
    requires WellTyped(t, v)
    decreases v, 0
  {
    if IsList(t) then
      if t.TOptional? && v.items == [] then None
      else Plus(Some(CountedHead(t, |v.items|)), TotalLength(Kids(t, |v.items|), v.items))
    else if t.TVariant? then Plus(Some(8), StreamedLength(t.alts[v.index], v.content))
    else Some(ScalarLength(t, v))
  }

  function TotalLength(ts: seq<Ty>, vs: seq<Val>): Option<nat>
    requires AllWellTyped(ts, vs)
    decreases vs, 1
  {
    if ts == [] then Some(0) else Plus(StreamedLength(ts[0], vs[0]), TotalLength(ts[1..], vs[1..]))
  }

  /** StreamedLength as it is computed: arrays, tuples and the ranges of containers are
      added up element by element. */
  method Measure(t: Ty, v: Val) returns (length: Option<nat>)
    requires WellTyped(t, v)
    ensures length == StreamedLength(t, v)
    decreases v, 0
  {
    if IsList(t) {
      if t.TOptional? && v.items == [] {
        return None;
      }
      var range := MeasureRange(Kids(t, |v.items|), v.items);
      length := Plus(Some(CountedHead(t, |v.items|)), range);
    } else if t.TVariant? {
      var content := Measure(t.alts[v.index], v.content);
      length := Plus(Some(8), content);
    } else {
      length := Some(ScalarLength(t, v));
    }
  }

  method MeasureRange(ts: seq<Ty>, vs: seq<Val>) returns (total: Option<nat>)
    requires AllWellTyped(ts, vs)
    ensures total == TotalLength(ts, vs)
    decreases vs, 1
  {
    hide StreamedLength, TotalLength, AllWellTyped, WellTyped;
    var rc, i := 0, 0;
    assert ts[0..] == ts && vs[0..] == vs;
    while i < |ts|
      invariant i <= |ts| && AllWellTyped(ts[i..], vs[i..])
      invariant TotalLength(ts, vs) == Plus(Some(rc), TotalLength(ts[i..], vs[i..]))
    {
      NextOf(ts, vs, i);
      var one := Measure(ts[i], vs[i]);
      if one.None? {
        return None;
      }
      rc := rc + one.value;
      i := i + 1;
    }
    NoneLeft(ts[i..], vs[i..]);
    total := Some(rc);
  }

  lemma NoneLeft(ts: seq<Ty>, vs: seq<Val>)
    requires ts == [] && AllWellTyped(ts, vs)
    ensures TotalLength(ts, vs) == Some(0)
  {
  }

  lemma NextOf(ts: seq<Ty>, vs: seq<Val>, i: nat)
    requires i < |ts| && |ts| == |vs| && AllWellTyped(ts[i..], vs[i..])
    ensures WellTyped(ts[i], vs[i]) && AllWellTyped(ts[i + 1..], vs[i + 1..])
    ensures TotalLength(ts[i..], vs[i..]) == Plus(StreamedLength(ts[i], vs[i]), TotalLength(ts[i + 1..], vs[i + 1..]))
  {
    assert ts[i..][1..] == ts[i + 1..] && vs[i..][1..] == vs[i + 1..];
  }

  /** The bytes that StreamedLength leaves out: eight for every bounded array and one for
      every optional. */
  function Omitted(t: Ty, v: Val): nat
    requires WellTyped(t, v)
    decreases v, 0
  {
    if IsList(t) then
      (if t.TBounded? then 8 else if t.TOptional? then 1 else 0) + AllOmitted(Kids(t, |v.items|), v.items)
    else if t.TVariant? then Omitted(t.alts[v.index], v.content)
    else 0
  }

  function AllOmitted(ts: seq<Ty>, vs: seq<Val>): nat
    requires AllWellTyped(ts, vs)
    decreases vs, 1
  {
    if ts == [] then 0 else Omitted(ts[0], vs[0]) + AllOmitted(ts[1..], vs[1..])
  }

  /** Some optional in the value is empty. */
  predicate Lacking(t: Ty, v: Val)
    requires WellTyped(t, v)
    decreases v, 0
  {
    if IsList(t) then (t.TOptional? && v.items == []) || AnyLacking(Kids(t, |v.items|), v.items)
    else t.TVariant? && Lacking(t.alts[v.index], v.content)
  }

  predicate AnyLacking(ts: seq<Ty>, vs: seq<Val>)
    requires AllWellTyped(ts, vs)
    decreases vs, 1
  {
    ts != [] && (Lacking(ts[0], vs[0]) || AnyLacking(ts[1..], vs[1..]))
  }

  /** StreamedLength throws exactly for values with an empty optional. For all others it
      is short of what DescriptorIO, GZIO and BZ2IO write by exactly what it omits, so it
      is right exactly for values without bounded arrays and optionals. */
  lemma {:induction false} LengthIsShortBy(w: Backend, t: Ty, v: Val)
    requires WellTyped(t, v) && !w.File?
    ensures StreamedLength(t, v).None? <==> Lacking(t, v)
    ensures StreamedLength(t, v).Some? ==> |Encode(w, t, v)| == StreamedLength(t, v).value + Omitted(t, v)
    decreases v, 0
  {
    if IsList(t) {
      RangeIsShortBy(w, Kids(t, |v.items|), v.items);
      ListIsShortBy(w, t, v);
    } else if t.TVariant? {
      VariantSizeIs(w, t, v);
      LengthIsShortBy(w, t.alts[v.index], v.content);
    } else {
      ScalarLengthIs(w, t, v);
    }
  }

  lemma ScalarLengthIs(w: Backend, t: Ty, v: Val)
    requires WellTyped(t, v) && !IsList(t) && !t.TVariant? && !w.File?
    ensures |EncodeLeaf(w, t, v)| == ScalarLength(t, v)
  {
  }

  lemma ListIsShortBy(w: Backend, t: Ty, v: Val)
    requires IsList(t) && WellTyped(t, v) && !w.File?
    requires var ts := Kids(t, |v.items|);
             && (TotalLength(ts, v.items).None? <==> AnyLacking(ts, v.items))
             && (TotalLength(ts, v.items).Some? ==>
                   |EncodeAll(w, ts, v.items)| == TotalLength(ts, v.items).value + AllOmitted(ts, v.items))
    ensures StreamedLength(t, v).None? <==> Lacking(t, v)
    ensures StreamedLength(t, v).Some? ==> |Encode(w, t, v)| == StreamedLength(t, v).value + Omitted(t, v)
  {
    ListSizeIs(w, t, v);
  }

  lemma {:induction false} RangeIsShortBy(w: Backend, ts: seq<Ty>, vs: seq<Val>)
    requires AllWellTyped(ts, vs) && !w.File?
    ensures TotalLength(ts, vs).None? <==> AnyLacking(ts, vs)
    ensures TotalLength(ts, vs).Some? ==> |EncodeAll(w, ts, vs)| == TotalLength(ts, vs).value + AllOmitted(ts, vs)
    decreases vs, 1
  {
    if ts != [] {
      AllSizeIs(w, ts, vs);
      LengthIsShortBy(w, ts[0], vs[0]);
      RangeIsShortBy(w, ts[1..], vs[1..]);
    }
  }

  /** What Write returns, given room, against what StreamedLength announced. FileIO's bytes
      are as many as long as there are no strings. */
  lemma WriteReturnsTheLength(w: Backend, t: Ty, v: Val, room: nat)
    requires WellTyped(t, v) && !Lacking(t, v) && |Encode(w, t, v)| <= room
    requires if w.File? then !HasString(t, v) else Solid(w, t, v)
    ensures StreamedLength(t, v).Some?
    ensures WriteTo(w, t, v, room).Used() == StreamedLength(t, v).value + Omitted(t, v)
    ensures !w.File? ==> WriteTo(w, t, v, room).rc == StreamedLength(t, v).value + Omitted(t, v)
  {
    var u := if w.File? then Descriptor(w.native) else w;
    LengthIsShortBy(u, t, v);
    SameBytes(w, u, t, v);
    WriteAccepted(w, t, v, room);
  }

  // ConstStreamedLength

  predicate HasConstStreamedLength(t: Ty) {
    match t
    case TInt(_) => true
    case TBool => true
    case TFloat(_) => true
    case TPair(a, b) => HasConstStreamedLength(a) && HasConstStreamedLength(b)
    case TTuple(ts) => AllHaveConstStreamedLength(ts)
    case TArray(e, _) => HasConstStreamedLength(e)
    case TBounded(e, _) => HasConstStreamedLength(Innermost(e))
    case _ => false
  }

  predicate AllHaveConstStreamedLength(ts: seq<Ty>) {
    ts == [] || (HasConstStreamedLength(ts[0]) && AllHaveConstStreamedLength(ts[1..]))
  }

  /** What remains of a bounded array without its extents, and how many there are. */
  function Innermost(t: Ty): (e: Ty)
    ensures e == t || e < t
  {
    if t.TBounded? then Innermost(t.elem) else t
  }

  function Cells(t: Ty): nat {
    if t.TBounded? then t.n * Cells(t.elem) else 1
  }

  function ConstStreamedLength(t: Ty): nat
    requires HasConstStreamedLength(t)
  {
    match t
    case TInt(width) => width
    case TBool => 1
    case TFloat(width) => width
    case TPair(a, b) => ConstStreamedLength(a) + ConstStreamedLength(b)
    case TTuple(ts) => TupleConstStreamedLength(ts)
    case TArray(e, n) => ConstStreamedLength(e) * n
    case TBounded(e, n) => ConstStreamedLength(Innermost(e)) * (n * Cells(e))
  }

  function TupleConstStreamedLength(ts: seq<Ty>): nat
    requires AllHaveConstStreamedLength(ts)
  {
    if ts == [] then 0 else ConstStreamedLength(ts[0]) + TupleConstStreamedLength(ts[1..])
  }

  /** How many bounded arrays, counted with the arrays they are made of, a value holds. */
  function Arrays(t: Ty): nat {
    match t
    case TPair(a, b) => Arrays(a) + Arrays(b)
    case TTuple(ts) => TotalArrays(ts)
    case TArray(e, n) => n * Arrays(e)
    case TBounded(e, n) => 1 + n * Arrays(e)
    case _ => 0
  }

  function TotalArrays(ts: seq<Ty>): nat {
    if ts == [] then 0 else Arrays(ts[0]) + TotalArrays(ts[1..])
  }

  lemma Regroup(c: int, n: int, m: int)
    ensures c * (n * m) == n * (c * m)
  {
    assert c * (n * m) == (c * n) * m == (n * c) * m;
  }

  /** All cells of a bounded array, or the one of anything else. */
  lemma CellsAddUp(e: Ty)
    requires HasConstStreamedLength(Innermost(e))
    ensures HasConstStreamedLength(e)
    ensures ConstStreamedLength(e) == ConstStreamedLength(Innermost(e)) * Cells(e)
  {
  }

  /** An array's length and number of arrays are those of its elements, times as many. */
  lemma ArrayAddsUp(t: Ty)
    requires (t.TArray? || t.TBounded?) && HasConstStreamedLength(t)
    ensures HasConstStreamedLength(t.elem)
    ensures ConstStreamedLength(t) == t.n * ConstStreamedLength(t.elem)
    ensures Arrays(t) == (if t.TBounded? then 1 else 0) + t.n * Arrays(t.elem)
  {
    if t.TBounded? {
      CellsAddUp(t.elem);
      Regroup(ConstStreamedLength(Innermost(t.elem)), t.n, Cells(t.elem));
    }
  }

  lemma PairSizeIs(w: Backend, a: Ty, b: Ty, v: Val)
    requires WellTyped(TPair(a, b), v)
    ensures |v.items| == 2 && WellTyped(a, v.items[0]) && WellTyped(b, v.items[1])
    ensures |Encode(w, TPair(a, b), v)| == |Encode(w, a, v.items[0])| + |Encode(w, b, v.items[1])|
  {
    ListSizeIs(w, TPair(a, b), v);
    assert [a, b][1..] == [b] && v.items[1..][0] == v.items[1];
    AllSizeIs(w, [a, b], v.items);
    AllSizeIs(w, [b], v.items[1..]);
  }

  /** The static length is that of the bytes every backend writes for every value of the
      type, less eight bytes for each bounded array, whose count it does not know of. */
  lemma {:induction false} StaticLengthIsShortBy(w: Backend, t: Ty, v: Val)
    requires WellTyped(t, v) && HasConstStreamedLength(t)
    ensures |Encode(w, t, v)| == ConstStreamedLength(t) + 8 * Arrays(t)
    decreases v, 0
  {
    match t
    case TPair(a, b) =>
      PairSizeIs(w, a, b, v);
      StaticLengthIsShortBy(w, a, v.items[0]);
      StaticLengthIsShortBy(w, b, v.items[1]);
    case TTuple(ts) =>
      ListSizeIs(w, t, v);
      StaticTotalIsShortBy(w, ts, v.items);
    case TArray(_, _) => StaticArrayIsShortBy(w, t, v);
    case TBounded(_, _) => StaticArrayIsShortBy(w, t, v);
    case _ =>
  }

  lemma {:induction false} StaticArrayIsShortBy(w: Backend, t: Ty, v: Val)
    requires (t.TArray? || t.TBounded?) && WellTyped(t, v) && HasConstStreamedLength(t)
    ensures |Encode(w, t, v)| == ConstStreamedLength(t) + 8 * Arrays(t)
    decreases v.items, 2
  {
    ListSizeIs(w, t, v);
    ArrayAddsUp(t);
    StaticCopiesAreShortBy(w, t.elem, t.n, v.items);
  }

  lemma {:induction false} StaticTotalIsShortBy(w: Backend, ts: seq<Ty>, vs: seq<Val>)
    requires AllWellTyped(ts, vs) && AllHaveConstStreamedLength(ts)
    ensures |EncodeAll(w, ts, vs)| == TupleConstStreamedLength(ts) + 8 * TotalArrays(ts)
    decreases vs, 1
  {
    if ts != [] {
      AllSizeIs(w, ts, vs);
      StaticLengthIsShortBy(w, ts[0], vs[0]);
      StaticTotalIsShortBy(w, ts[1..], vs[1..]);
    }
  }

  lemma {:induction false} StaticCopiesAreShortBy(w: Backend, e: Ty, n: nat, vs: seq<Val>)
    requires HasConstStreamedLength(e) && AllWellTyped(Copies(e, n), vs)
    ensures |EncodeAll(w, Copies(e, n), vs)| == n * ConstStreamedLength(e) + 8 * (n * Arrays(e))
    decreases vs, 1
  {
    hide Encode, ConstStreamedLength, Arrays, HasConstStreamedLength;
    if n > 0 {
      assert Copies(e, n)[1..] == Copies(e, n - 1);
      AllSizeIs(w, Copies(e, n), vs);
      StaticLengthIsShortBy(w, e, vs[0]);
      StaticCopiesAreShortBy(w, e, n - 1, vs[1..]);
      var c, a := ConstStreamedLength(e), Arrays(e);
      assert n * c == c + (n - 1) * c && n * a == a + (n - 1) * a;
    }
  }
}
