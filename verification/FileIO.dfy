/** FileIO: Read and Write that return 0 for failure, and otherwise a positive number. */
module FileIO {
  import opened Bytes
  import opened Streams
  import opened EncodedInteger
  import opened CodecTypes
  import opened Codec
  import opened CodecRoundTrip
  import opened CodecTheorems
  import opened CodecLoops
  import opened CodecWrites
  import opened WriteLoops

  // Reading

  method ScalarRead(be: Backend, src: Source, t: Ty, width: nat, target: Obj) returns (rc: int, obj: Obj)
    requires src.Valid() && be.File? && (t.TInt? || t.TFloat? || (t.TBool? && width == 1))
    modifies src
    ensures src.Valid()
    ensures ReadBy(ReadScalar(be, t, width, target, old(src.Rest())), rc, obj, old(src.Rest()), src.Rest())
    ensures t.TInt? && width <= |old(src.Rest())| ==>
              obj.OInt? && Spells(Big, old(src.Rest())[..width], obj.bits)
  {
    hide FromBytes, Spells;
    var buf := src.Read(width);
    rc, obj := 0, target;
    if |buf| == width {
      rc := width;
      SpellsExactly(Big, buf, FromBytes(Big, buf));
      obj := if t.TInt? then OInt(FromBytes(Big, buf)) else if t.TFloat? then OFloat(buf) else OBool(buf[0] != 0);
    }
  }

  /** An EncodedU64 in front of what it counts. */
  method CountRead(native: Endian, src: Source) returns (ok: bool, n: nat)
    requires src.Valid()
    modifies src
    ensures src.Valid()
    ensures match ReadCount(old(src.Rest()))
            case Head(count, used) => ok && n == count && src.Rest() == old(src.Rest())[used..]
            case NoHead(used) => !ok && used == |old(src.Rest())| && src.Rest() == []
  {
    var zero := new EncodedUnsigned(8, native, 0);
    var rc := zero.Read(src);
    ok, n := rc > 0, zero.Value();
  }

  method WordRead(be: Backend, src: Source) returns (ok: bool, n: nat)
    requires src.Valid() && be.File?
    modifies src
    ensures src.Valid()
    ensures match ReadWord(old(src.Rest()))
            case Head(word, used) => ok && used == 8 && n == word && src.Rest() == old(src.Rest())[8..]
            case NoHead(used) => !ok && used == |old(src.Rest())| && src.Rest() == []
  {
    var rc, x := ScalarRead(be, src, TInt(8), 8, OInt(0));
    ok, n := rc == 8, x.bits;
  }

  method StringRead(be: Backend, src: Source, target: Obj) returns (rc: int, obj: Obj)
    requires src.Valid() && be.File?
    modifies src
    ensures src.Valid() && ReadBy(ReadString(be, target, old(src.Rest())), rc, obj, old(src.Rest()), src.Rest())
  {
    rc, obj := 0, OString([]);
    var ok, len := WordRead(be, src);
    if ok {
      rc := 8;
      var chars := src.Read(len);
      if |chars| == len {
        rc := rc + len;
        obj := OString(chars);
      } else {
        rc := 0;
      }
    }
  }

  method Read(be: Backend, src: Source, t: Ty, target: Obj) returns (rc: int, obj: Obj)
    requires src.Valid() && be.File?
    modifies src
    ensures src.Valid() && ReadBy(ReadFrom(be, t, target, old(src.Rest())), rc, obj, old(src.Rest()), src.Rest())
    decreases Height(t), 1, 0
  {
    match t
    case TInt(width) => rc, obj := ScalarRead(be, src, t, width, target);
    case TBool => rc, obj := ScalarRead(be, src, t, 1, target);
    case TFloat(width) => rc, obj := ScalarRead(be, src, t, width, target);
    case TString => rc, obj := StringRead(be, src, target);
    case TMono => rc, obj := 1, OMono;
    case TPair(_, _) => rc, obj := PairRead(be, src, t, target);
    case TTuple(_) => rc, obj := ArrayRead(be, src, t, target);
    case TArray(_, _) => rc, obj := ArrayRead(be, src, t, target);
    case TBounded(_, _) => rc, obj := BoundedArrayRead(be, src, t, target);
    case TCont(_, _) => rc, obj := ContainerRead(be, src, t, target);
    case TMap(_, _, _) => rc, obj := ContainerRead(be, src, t, target);
    case TVariant(_) => rc, obj := VariantRead(be, src, t, target);
    case TOptional(_) => rc, obj := OptionalRead(be, src, t, target);
  }

  method PairRead(be: Backend, src: Source, t: Ty, target: Obj) returns (rc: int, obj: Obj)
    requires src.Valid() && be.File? && t.TPair?
    modifies src
    ensures src.Valid() && ReadBy(ReadFrom(be, t, target, old(src.Rest())), rc, obj, old(src.Rest()), src.Rest())
    decreases Height(t), 0, 0
  {
    hide ReadFrom, ReadAll, KidTargets;
    ghost var input := src.Rest();
    var parts := KidTargets(t, target, [t.first, t.second]);
    ghost var r := ReadFrom(be, t.first, parts[0], input);
    ghost var s := ReadFrom(be, t.second, parts[1], input[r.used..]);
    var one, first := Read(be, src, t.first, parts[0]);
    var second := parts[1];
    rc := 0;
    if one > 0 {
      var two;
      two, second := Read(be, src, t.second, parts[1]);
      if two > 0 {
        rc := 1;
      }
      FromTwice(input, r.used, s.used);
    }
    obj := OList([first, second]);
    PairReading(be, t, target, input, r, s);
  }

  /** One turn of a loop over components: reads number `i`. */
  method NextComponent(be: Backend, src: Source, t: Ty, target: Obj,
                       ghost ts: seq<Ty>, ghost targets: seq<Obj>, ghost input: seq<Byte>,
                       ghost i: nat, ghost rc: int, ghost objs: seq<Obj>, ghost at: nat)
    returns (count: int, x: Obj, ghost at': nat)
    requires src.Valid() && be.File? && i < |ts| == |targets| && t == ts[i] && target == targets[i]
    requires Midway(be, false, ts, targets, input, i, rc, objs, at) && src.Rest() == input[at..]
    modifies src
    ensures src.Valid() && at' <= |input| && src.Rest() == input[at'..]
    ensures count > 0 ==> Midway(be, false, ts, targets, input, i + 1, rc + count, objs + [x], at')
    ensures count <= 0 ==> ReadAll(be, false, ts, targets, input) == Readings(i, rc, objs + [x] + targets[i + 1..], at')
    decreases Height(t), 1, 1
  {
    hide ReadFrom, ReadAll;
    ghost var r := ReadFrom(be, t, target, input[at..]);
    count, x := Read(be, src, t, target);
    NextRead(be, false, ts, targets, input, i, rc, objs, at, r, count, x);
    at' := at + r.used;
  }

  /** The loop over the components of an array, or the fold over those of a tuple. */
  method Components(be: Backend, src: Source, ts: seq<Ty>, targets: seq<Obj>)
    returns (ok: bool, ghost rc: int, objs: seq<Obj>)
    requires src.Valid() && be.File? && |targets| == |ts|
    modifies src
    ensures src.Valid()
    ensures var m := ReadAll(be, false, ts, targets, old(src.Rest()));
            && ok == (m.n == |ts|) && rc == m.rc && objs == m.objs
            && src.Rest() == old(src.Rest())[m.used..]
    decreases HeightAll(ts), 2, 0
  {
    hide ReadFrom, ReadAll, Height, HeightAll, Midway;
    ghost var input: seq<Byte>, at: nat := src.Rest(), 0;
    AtStart(be, false, ts, targets, input);
    rc, objs := 0, [];
    var i := 0;
    while i < |ts|
      invariant i <= |ts| && src.Valid() && at <= |input| && src.Rest() == input[at..]
      invariant Midway(be, false, ts, targets, input, i, rc, objs, at)
    {
      AltHeight(ts, i);
      var count, x;
      count, x, at := NextComponent(be, src, ts[i], targets[i], ts, targets, input, i, rc, objs, at);
      if count <= 0 {
        return false, rc, objs + [x] + targets[i + 1..];
      }
      rc, objs, i := rc + count, objs + [x], i + 1;
    }
    AtEnd(be, false, ts, targets, input, rc, objs, at);
    ok := true;
  }

  /** std::array and std::tuple: the components, and nothing else. */
  method ArrayRead(be: Backend, src: Source, t: Ty, target: Obj) returns (rc: int, obj: Obj)
    requires src.Valid() && be.File? && (t.TArray? || t.TTuple?)
    modifies src
    ensures src.Valid() && ReadBy(ReadFrom(be, t, target, old(src.Rest())), rc, obj, old(src.Rest()), src.Rest())
    decreases Height(t), 0, 0
  {
    hide ReadFrom, ReadAll, Kids, KidTargets, Height, HeightAll;
    ghost var input := src.Rest();
    var ts := Kids(t, 0);
    KidsHeight(t, 0);
    var ok, sum, objs := Components(be, src, ts, KidTargets(t, target, ts));
    rc := if ok then 1 else 0;
    obj := OList(objs);
    ArrayIs(be, t, target, input);
  }

  method BoundedArrayRead(be: Backend, src: Source, t: Ty, target: Obj) returns (rc: int, obj: Obj)
    requires src.Valid() && be.File? && t.TBounded?
    modifies src
    ensures src.Valid() && ReadBy(ReadFrom(be, t, target, old(src.Rest())), rc, obj, old(src.Rest()), src.Rest())
    decreases Height(t), 0, 0
  {
    hide ReadFrom, ReadAll, ReadWord, KidTargets, Height, HeightAll, Kids, FromBytes;
    ghost var input := src.Rest();
    rc, obj := 0, target;
    var got, n := WordRead(be, src);
    if got && n == t.n {
      var ts := Kids(t, n);
      KidsHeight(t, n);
      var ok, sum, objs := Components(be, src, ts, KidTargets(t, target, ts));
      rc := if ok then 1 else 0;
      obj := OList(objs);
      BoundedIs(be, t, target, input);
      FromTwice(input, 8, ReadAll(be, false, ts, KidTargets(t, target, ts), input[8..]).used);
    } else {
      Headless(be, t, target, input);
    }
  }

  method OptionalRead(be: Backend, src: Source, t: Ty, target: Obj) returns (rc: int, obj: Obj)
    requires src.Valid() && be.File? && t.TOptional?
    modifies src
    ensures src.Valid() && ReadBy(ReadFrom(be, t, target, old(src.Rest())), rc, obj, old(src.Rest()), src.Rest())
    decreases Height(t), 0, 0
  {
    hide ReadFrom, ReadAll;
    ghost var input := src.Rest();
    var got, flag := ScalarRead(be, src, TBool, 1, OBool(false));
    rc, obj := 0, target;
    if got <= 0 {
      Headless(be, t, target, input);
    } else if flag.b {
      var part := KidTargets(t, target, [t.elem])[0];
      EngagedReading(be, t, target, input);
      ghost var r := ReadFrom(be, t.elem, part, input[1..]);
      FromTwice(input, 1, r.used);
      NeverNegative(be, t.elem, part, input[1..]);
      var x;
      rc, x := Read(be, src, t.elem, part);
      obj := OList([x]);
    } else {
      EmptyReading(be, t, target, input);
      rc, obj := 1, OList([]);
    }
  }

  method VariantRead(be: Backend, src: Source, t: Ty, target: Obj) returns (rc: int, obj: Obj)
    requires src.Valid() && be.File? && t.TVariant?
    modifies src
    ensures src.Valid() && ReadBy(ReadFrom(be, t, target, old(src.Rest())), rc, obj, old(src.Rest()), src.Rest())
    decreases Height(t), 0, 0
  {
    hide ReadFrom, ReadAll, Default, ReadWord;
    ghost var input := src.Rest();
    rc, obj := 0, target;
    var got, index := WordRead(be, src);
    if !got || index >= |t.alts| {
      NoAlternative(be, t, target, input);
      return;
    }
    AltHeight(t.alts, index);
    ghost var rest := src.Rest();
    var x;
    rc, x := Read(be, src, t.alts[index], Default(t.alts[index]));
    obj := OAlt(index, x);
    VariantReadBy(be, t, target, input, rest, rc, rc, x, src.Rest());
  }

  /** Containers, and by PairAssocContRead maps, whose reading of a key and a value is that
      of a pair of new objects. */
  method ContainerRead(be: Backend, src: Source, t: Ty, target: Obj) returns (rc: int, obj: Obj)
    requires src.Valid() && be.File? && (t.TCont? || t.TMap?)
    modifies src
    ensures src.Valid() && ReadBy(ReadFrom(be, t, target, old(src.Rest())), rc, obj, old(src.Rest()), src.Rest())
    decreases Height(t), 0, 2
  {
    hide ReadFrom, ReadAll, Gather, Defaults, Copies, ReadCount;
    ghost var input := src.Rest();
    rc, obj := 0, Emptied(t);
    var got, numEntries := CountRead(be.native, src);
    if got {
      ghost var rest, ts := src.Rest(), Copies(ElemType(t), numEntries);
      ghost var m := ReadAll(be, false, ts, Defaults(ts), rest);
      var ok;
      ghost var sum;
      ok, sum, obj := ElementsRead(be, src, t, numEntries);
      rc := if ok then 1 else 0;
      ContainerReadBy(be, t, target, input, rest, m, ok, sum, rc, obj, src.Rest());
    } else {
      Headless(be, t, target, input);
    }
  }

  /** The loop that inserts the elements into the emptied container. */
  method ElementsRead(be: Backend, src: Source, t: Ty, n: nat) returns (ok: bool, ghost rc: int, obj: Obj)
    requires src.Valid() && be.File? && (t.TCont? || t.TMap?)
    modifies src
    ensures src.Valid()
    ensures var ts := Copies(ElemType(t), n);
            ElementsBy(t, n, ReadAll(be, false, ts, Defaults(ts), old(src.Rest())), ok, rc, obj,
                       old(src.Rest()), src.Rest())
    decreases Height(t), 0, 1
  {
    hide ReadFrom, ReadAll, Gather, Defaults, Copies, Insert, Emptied;
    var e := ElemType(t);
    ghost var input: seq<Byte>, at: nat := src.Rest(), 0;
    ghost var ts, objs := Copies(e, n), [];
    AtStart(be, false, ts, Defaults(ts), input);
    GatherNone(t);
    rc, obj := 0, Emptied(t);
    var i := 0;
    while i < n
      invariant i <= n && src.Valid() && at <= |input| && src.Rest() == input[at..]
      invariant Midway(be, false, ts, Defaults(ts), input, i, rc, objs, at) && obj == Gather(t, objs)
    {
      DefaultsAt(e, n, i);
      var count, val;
      count, val, at := NextComponent(be, src, e, Default(e), ts, Defaults(ts), input, i, rc, objs, at);
      if count <= 0 {
        KeptObjects(objs, val, Defaults(ts)[i + 1..]);
        return false, rc, obj;
      }
      GatherAppend(t, objs, val);
      rc, obj, objs, i := rc + count, Insert(obj, val), objs + [val], i + 1;
    }
    AtEnd(be, false, ts, Defaults(ts), input, rc, objs, at);
    assert objs[..n] == objs;
    ok := true;
  }

  // Writing

  method ScalarWrite(w: Backend, sink: Sink, t: Ty, v: Val, bytes: seq<Byte>) returns (rc: int)
    requires WellTyped(t, v) && (t.TInt? || t.TBool? || t.TFloat?) && bytes == EncodeLeaf(w, t, v) && w.File?
    modifies sink
    ensures WroteBy(w, t, v, rc, old(sink.data), old(sink.room), sink.data, sink.room)
    ensures t.TInt? && t.width <= old(sink.room) ==>
              old(sink.data) <= sink.data && Spells(Big, sink.data[|old(sink.data)|..], v.bits)
  {
    hide ToBytes, Spells;
    if t.TInt? {
      WordSpells(Big, v.bits, t.width);
    }
    var n := sink.Write(bytes);
    rc := if n == |bytes| then n else 0;
    LeafWroteBy(w, t, v, rc, old(sink.data), old(sink.room), sink.data, sink.room);
  }

  method WordWrite(sink: Sink, n: nat) returns (ok: bool)
    requires n < Pow256(8)
    modifies sink
    ensures var bytes := ToBytes(Big, n, 8);
            && sink.data == old(sink.data) + Clip(bytes, old(sink.room))
            && sink.room == old(sink.room) - |Clip(bytes, old(sink.room))|
    ensures ok <==> 8 <= old(sink.room)
  {
    var bytes := ToBytes(Big, n, 8);
    var got := sink.Write(bytes);
    ok := got == 8;
  }

  method CountWrite(native: Endian, sink: Sink, n: nat) returns (ok: bool)
    requires n < Pow256(8)
    modifies sink
    ensures var wire := Wire(native, false, n, 8);
            && sink.data == old(sink.data) + Clip(wire, old(sink.room))
            && sink.room == old(sink.room) - |Clip(wire, old(sink.room))|
            && (ok <==> |wire| <= old(sink.room))
  {
    var count := new EncodedUnsigned(8, native, n);
    var rc := count.Write(sink);
    ok := rc > 0;
  }

  /** A string's length is a plain 64-bit number here. */
  method StringWrite(w: Backend, sink: Sink, v: Val) returns (rc: int)
    requires WellTyped(TString, v) && w.File?
    modifies sink
    ensures WroteBy(w, TString, v, rc, old(sink.data), old(sink.room), sink.data, sink.room)
  {
    hide Wire, ToBytes, WriteTo;
    ghost var data, room := sink.data, sink.room;
    ghost var head := LengthBytes(w, |v.chars|);
    rc := 0;
    var ok := WordWrite(sink, |v.chars|);
    BothClipped(data, head, v.chars, room);
    if ok {
      rc := 8;
      var n := sink.Write(v.chars);
      if n == |v.chars| {
        rc := rc + n;
      } else {
        rc := 0;
      }
    }
    LeafWroteBy(w, TString, v, rc, data, room, sink.data, sink.room);
  }

  method Write(w: Backend, sink: Sink, t: Ty, v: Val) returns (rc: int)
    requires WellTyped(t, v) && w.File?
    modifies sink
    ensures WroteBy(w, t, v, rc, old(sink.data), old(sink.room), sink.data, sink.room)
    decreases v, 1
  {
    hide WriteTo, Encode, AllWellTyped, Solid;
    match t
    case TInt(width) => rc := ScalarWrite(w, sink, t, v, ToBytes(Big, v.bits, width));
    case TBool => rc := ScalarWrite(w, sink, t, v, [if v.b then 1 else 0]);
    case TFloat(_) => rc := ScalarWrite(w, sink, t, v, v.xdr);
    case TString => rc := StringWrite(w, sink, v);
    case TMono =>
      rc := 1;
      assert sink.data + Clip([], sink.room) == sink.data;
      LeafWroteBy(w, t, v, rc, sink.data, sink.room, sink.data, sink.room);
    case TPair(_, _) => rc := ArrayWrite(w, sink, t, v);
    case TTuple(_) => rc := ArrayWrite(w, sink, t, v);
    case TArray(_, _) => rc := ArrayWrite(w, sink, t, v);
    case TBounded(_, _) => rc := BoundedArrayWrite(w, sink, t, v);
    case TCont(_, _) => rc := ContainerWrite(w, sink, t, v);
    case TMap(_, _, _) => rc := ContainerWrite(w, sink, t, v);
    case TVariant(_) => rc := VariantWrite(w, sink, t, v);
    case TOptional(_) => rc := OptionalWrite(w, sink, t, v);
  }

  /** The loop over the components of an array, the members of a tuple or a pair, or the
      elements of a container. It stops at the first that fails. */
  method RangeWrite(w: Backend, sink: Sink, ts: seq<Ty>, vs: seq<Val>) returns (ok: bool, ghost rc: int)
    requires AllWellTyped(ts, vs) && w.File?
    modifies sink
    ensures AllWrote(WriteAll(w, false, ts, vs, old(sink.room)), |ts|, ok, rc, old(sink.data), old(sink.room),
                     sink.data, sink.room)
    decreases vs, 2
  {
    hide WriteTo, WriteAll, WellTyped, AllWellTyped, HalfWritten;
    ghost var data, room := sink.data, sink.room;
    ghost var sent: seq<Byte> := [];
    WriteStart(w, false, ts, vs, room);
    rc := 0;
    var i := 0;
    while i < |ts|
      invariant i <= |ts| && HalfWritten(w, false, ts, vs, room, i, rc, sent)
      invariant sink.data == data + sent && sink.room == room - |sent|
    {
      HalfWay(w, false, ts, vs, room, i, rc, sent);
      ghost var r := WriteTo(w, ts[i], vs[i], sink.room);
      var count := Write(w, sink, ts[i], vs[i]);
      WriteNext(w, false, ts, vs, room, i, rc, sent, r, count);
      assert data + sent + r.sent == data + (sent + r.sent);
      if count <= 0 {
        return false, rc;
      }
      sent, rc, i := sent + r.sent, rc + count, i + 1;
    }
    WriteEnd(w, false, ts, vs, room, rc, sent);
    ok := true;
  }

  /** Pairs, std::array and std::tuple: the components, and nothing else. */
  method ArrayWrite(w: Backend, sink: Sink, t: Ty, v: Val) returns (rc: int)
    requires WellTyped(t, v) && w.File? && (t.TPair? || t.TTuple? || t.TArray?)
    modifies sink
    ensures WroteBy(w, t, v, rc, old(sink.data), old(sink.room), sink.data, sink.room)
    decreases v, 0
  {
    hide WriteTo, WriteAll, Encode, EncodeAll, AllWellTyped, Solid, AllSolid;
    ghost var data, room := sink.data, sink.room;
    var ok, sum := RangeWrite(w, sink, Kids(t, |v.items|), v.items);
    rc := if ok then 1 else 0;
    assert data + [] == data;
    ListWroteBy(w, t, v, data, room, data, room, ok, sum, rc, sink.data, sink.room);
  }

  method BoundedArrayWrite(w: Backend, sink: Sink, t: Ty, v: Val) returns (rc: int)
    requires WellTyped(t, v) && w.File? && t.TBounded?
    modifies sink
    ensures WroteBy(w, t, v, rc, old(sink.data), old(sink.room), sink.data, sink.room)
    decreases v, 0
  {
    hide WriteTo, WriteAll, Encode, EncodeAll, AllWellTyped, Solid, AllSolid, ToBytes;
    ghost var data, room := sink.data, sink.room;
    ItemsFit(t, v);
    rc := 0;
    var got := WordWrite(sink, t.n);
    if got {
      ghost var data', room' := sink.data, sink.room;
      var ok, sum := RangeWrite(w, sink, Kids(t, |v.items|), v.items);
      rc := if ok then 1 else 0;
      ListWroteBy(w, t, v, data, room, data', room', ok, sum, rc, sink.data, sink.room);
    } else {
      HeadRefused(w, t, v, rc, data, room, sink.data);
    }
  }

  method OptionalWrite(w: Backend, sink: Sink, t: Ty, v: Val) returns (rc: int)
    requires WellTyped(t, v) && w.File? && t.TOptional?
    modifies sink
    ensures WroteBy(w, t, v, rc, old(sink.data), old(sink.room), sink.data, sink.room)
    decreases v, 0
  {
    hide WriteTo, WriteAll, Encode, EncodeAll, Solid, AllSolid;
    ghost var data, room := sink.data, sink.room;
    ItemsFit(t, v);
    rc := 0;
    var hasValue := v.items != [];
    var got := sink.Write([if hasValue then 1 else 0]);
    if got == 1 {
      ghost var data', room' := sink.data, sink.room;
      OneOf(t.elem);
      if hasValue {
        rc := Write(w, sink, t.elem, v.items[0]);
        OneWrote(w, t.elem, v.items[0], v.items, rc, data', room', sink.data, sink.room);
        ListWroteBy(w, t, v, data, room, data', room', rc > 0, rc, if rc > 0 then rc else 0, sink.data, sink.room);
        NeverSigned(w, t.elem, v.items[0], room');
      } else {
        rc := 1;
        NoneWrote(w, t, v, data', room');
        ListWroteBy(w, t, v, data, room, data', room', true, 0, rc, sink.data, sink.room);
      }
    } else {
      HeadRefused(w, t, v, rc, data, room, sink.data);
    }
  }

  method VariantWrite(w: Backend, sink: Sink, t: Ty, v: Val) returns (rc: int)
    requires WellTyped(t, v) && w.File? && t.TVariant?
    modifies sink
    ensures WroteBy(w, t, v, rc, old(sink.data), old(sink.room), sink.data, sink.room)
    decreases v, 0
  {
    hide WriteTo, WriteAll, Encode, EncodeAll, AllWellTyped, Solid, AllSolid, ToBytes;
    ghost var data, room := sink.data, sink.room;
    rc := 0;
    var got := WordWrite(sink, v.index);
    if got {
      ghost var data', room' := sink.data, sink.room;
      rc := Write(w, sink, t.alts[v.index], v.content);
      VariantWroteBy(w, t, v, data, room, data', room', rc, rc, sink.data, sink.room);
    } else {
      IndexRefused(w, t, v, rc, data, room, sink.data);
    }
  }

  method ContainerWrite(w: Backend, sink: Sink, t: Ty, v: Val) returns (rc: int)
    requires WellTyped(t, v) && w.File? && (t.TCont? || t.TMap?)
    modifies sink
    ensures WroteBy(w, t, v, rc, old(sink.data), old(sink.room), sink.data, sink.room)
    decreases v, 0
  {
    hide WriteTo, WriteAll, Encode, EncodeAll, AllWellTyped, Solid, AllSolid, Wire, Kids, WroteBy, HeadBytes;
    ghost var data, room := sink.data, sink.room;
    var vs := v.items;
    ItemsFit(t, v);
    CountInFront(w, t, |vs|);
    rc := 0;
    var got := CountWrite(w.native, sink, |vs|);
    if got {
      ghost var data', room' := sink.data, sink.room;
      var ok, sum := RangeWrite(w, sink, Kids(t, |vs|), vs);
      rc := if ok then 1 else 0;
      ListWroteBy(w, t, v, data, room, data', room', ok, sum, rc, sink.data, sink.room);
    } else {
      HeadRefused(w, t, v, rc, data, room, sink.data);
    }
  }
}
