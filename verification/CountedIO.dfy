/** DescriptorIO, GZIO and BZ2IO: Read and Write with byte counts, -1 for failure. */
module CountedIO {
  import opened Bytes
  import opened Streams
  import opened EncodedInteger
  import opened CodecTypes
  import opened Codec
  import opened CodecRoundTrip
  import opened CodecTheorems
  import opened CodecLoops
  import opened CodecWrites
  import opened WriteLoops

  // Reading

  method ScalarRead(be: Backend, src: Source, t: Ty, width: nat, target: Obj) returns (rc: int, obj: Obj)
    requires src.Valid() && (t.TInt? || t.TFloat? || (t.TBool? && width == 1))
    modifies src
    ensures src.Valid()
    ensures ReadBy(ReadScalar(be, t, width, target, old(src.Rest())), rc, obj, old(src.Rest()), src.Rest())
    ensures t.TInt? && width <= |old(src.Rest())| ==>
              obj.OInt? && Spells(Big, old(src.Rest())[..width], obj.bits)
  {
    hide ToBytes, FromBytes, Spells;
    ghost var input := src.Rest();
    var buf := src.Read(width);
    obj := target;
    if |buf| == width {
      rc := width;
      SpellsExactly(Big, buf, FromBytes(Big, buf));
      obj := if t.TInt? then OInt(FromBytes(Big, buf)) else if t.TFloat? then OFloat(buf) else OBool(buf[0] != 0);
    } else {
      assert buf == input;
      rc, obj := ShortRead(be, t, |buf|), ShortTarget(be, t, target, buf);
    }
  }

  /** An EncodedU64 in front of what it counts. */
  method CountRead(native: Endian, src: Source) returns (rc: int, n: nat)
    requires src.Valid()
    modifies src
    ensures src.Valid()
    ensures match ReadCount(old(src.Rest()))
            case Head(count, used) => rc == used > 0 && n == count && src.Rest() == old(src.Rest())[used..]
            case NoHead(used) => rc == -1 && used == |old(src.Rest())| && src.Rest() == []
  {
    var zero := new EncodedUnsigned(8, native, 0);
    rc := zero.Read(src);
    n := zero.Value();
  }

  method StringRead(be: Backend, src: Source, target: Obj) returns (rc: int, obj: Obj)
    requires src.Valid() && !be.File?
    modifies src
    ensures src.Valid() && ReadBy(ReadString(be, target, old(src.Rest())), rc, obj, old(src.Rest()), src.Rest())
  {
    hide Unwire, ReadString, Zeros, ReadCount;
    ghost var input := src.Rest();
    obj := if be.Bz2? then target else OString([]);
    var bytesRead, len := CountRead(be.native, src);
    CountsTakeBytes(input);
    rc := -1;
    if 1 < bytesRead {
      rc := bytesRead;
      ghost var rest := src.Rest();
      var chars := src.Read(len);
      if |chars| == len {
        rc := rc + len;
        obj := OString(chars);
        assert chars == rest[..len] && src.Rest() == rest[len..];
        WholeStringReadBy(be, target, input, len, rest);
      } else {
        rc := -1;
        obj := OString(if be.Gz? then chars + Zeros(len - |chars|) else []);
        assert chars == rest && src.Rest() == [];
        PartStringReadBy(be, target, input, len, rest);
      }
    } else {
      NoString(be, target, input);
    }
  }

  method Read(be: Backend, src: Source, t: Ty, target: Obj) returns (rc: int, obj: Obj)
    requires src.Valid() && !be.File?
    modifies src
    ensures src.Valid() && ReadBy(ReadFrom(be, t, target, old(src.Rest())), rc, obj, old(src.Rest()), src.Rest())
    decreases Height(t), 1, 0
  {
    match t
    case TInt(width) => rc, obj := ScalarRead(be, src, t, width, target);
    case TBool => rc, obj := ScalarRead(be, src, t, 1, target);
    case TFloat(width) => rc, obj := ScalarRead(be, src, t, width, target);
    case TString => rc, obj := StringRead(be, src, target);
    case TMono => rc, obj := 0, OMono;
    case TPair(_, _) => rc, obj := PairRead(be, src, t, target);
    case TTuple(_) => rc, obj := ArrayRead(be, src, t, target);
    case TArray(_, _) => rc, obj := ArrayRead(be, src, t, target);
    case TBounded(_, _) => rc, obj := BoundedArrayRead(be, src, t, target);
    case TCont(_, _) => rc, obj := ContainerRead(be, src, t, target);
    case TMap(_, _, _) => rc, obj := ContainerRead(be, src, t, target);
    case TVariant(_) => rc, obj := VariantRead(be, src, t, target);
    case TOptional(_) => rc, obj := OptionalRead(be, src, t, target);
  }

  method PairRead(be: Backend, src: Source, t: Ty, target: Obj) returns (rc: int, obj: Obj)
    requires src.Valid() && !be.File? && t.TPair?
    modifies src
    ensures src.Valid() && ReadBy(ReadFrom(be, t, target, old(src.Rest())), rc, obj, old(src.Rest()), src.Rest())
    decreases Height(t), 0, 0
  {
    hide ReadFrom, ReadAll, KidTargets;
    ghost var input := src.Rest();
    var parts := KidTargets(t, target, [t.first, t.second]);
    ghost var r := ReadFrom(be, t.first, parts[0], input);
    ghost var s := ReadFrom(be, t.second, parts[1], input[r.used..]);
    var bytesRead, first := Read(be, src, t.first, parts[0]);
    var second := parts[1];
    rc := -1;
    if bytesRead > 0 {
      rc := bytesRead;
      bytesRead, second := Read(be, src, t.second, parts[1]);
      if bytesRead > 0 {
        rc := rc + bytesRead;
      } else {
        rc := -1;
      }
      FromTwice(input, r.used, s.used);
    }
    obj := OList([first, second]);
    PairReading(be, t, target, input, r, s);
  }

  /** One turn of a loop over components: reads number `i`. */
  method NextComponent(be: Backend, src: Source, narrow: bool, t: Ty, target: Obj,
                       ghost ts: seq<Ty>, ghost targets: seq<Obj>, ghost input: seq<Byte>,
                       ghost i: nat, ghost rc: int, ghost objs: seq<Obj>, ghost at: nat)
    returns (count: int, x: Obj, ghost at': nat)
    requires src.Valid() && !be.File? && i < |ts| == |targets| && t == ts[i] && target == targets[i]
    requires Midway(be, narrow, ts, targets, input, i, rc, objs, at) && src.Rest() == input[at..]
    modifies src
    ensures src.Valid() && at' <= |input| && src.Rest() == input[at'..]
    ensures count > 0 ==> Midway(be, narrow, ts, targets, input, i + 1, rc + count, objs + [x], at')
    ensures count <= 0 ==>
              ReadAll(be, narrow, ts, targets, input) == Readings(i, rc, objs + [x] + targets[i + 1..], at')
    decreases Height(t), 1, 1
  {
    hide ReadFrom, ReadAll;
    ghost var r := ReadFrom(be, t, target, input[at..]);
    count, x := Read(be, src, t, target);
    count := Kept(narrow, count);
    NextRead(be, narrow, ts, targets, input, i, rc, objs, at, r, count, x);
    at' := at + r.used;
  }

  /** The loop over the components of an array, or of a tuple, whose members' counts pass
      through an int. It stops at the first that fails. */
  method Components(be: Backend, src: Source, narrow: bool, ts: seq<Ty>, targets: seq<Obj>)
    returns (ok: bool, rc: int, objs: seq<Obj>)
    requires src.Valid() && !be.File? && |targets| == |ts|
    modifies src
    ensures src.Valid()
    ensures var m := ReadAll(be, narrow, ts, targets, old(src.Rest()));
            && ok == (m.n == |ts|) && rc == m.rc && objs == m.objs
            && src.Rest() == old(src.Rest())[m.used..]
    decreases HeightAll(ts), 2, 0
  {
    hide ReadFrom, ReadAll, Height, HeightAll, Midway;
    ghost var input: seq<Byte>, at: nat := src.Rest(), 0;
    AtStart(be, narrow, ts, targets, input);
    rc, objs := 0, [];
    var i := 0;
    while i < |ts|
      invariant i <= |ts| && src.Valid() && at <= |input| && src.Rest() == input[at..]
      invariant Midway(be, narrow, ts, targets, input, i, rc, objs, at)
    {
      AltHeight(ts, i);
      var bytesRead, x;
      bytesRead, x, at := NextComponent(be, src, narrow, ts[i], targets[i], ts, targets, input, i, rc, objs, at);
      if bytesRead <= 0 {
        return false, rc, objs + [x] + targets[i + 1..];
      }
      rc, objs, i := rc + bytesRead, objs + [x], i + 1;
    }
    AtEnd(be, narrow, ts, targets, input, rc, objs, at);
    ok := true;
  }

  /** std::array and std::tuple: the components, and nothing else. */
  method ArrayRead(be: Backend, src: Source, t: Ty, target: Obj) returns (rc: int, obj: Obj)
    requires src.Valid() && !be.File? && (t.TArray? || t.TTuple?)
    modifies src
    ensures src.Valid() && ReadBy(ReadFrom(be, t, target, old(src.Rest())), rc, obj, old(src.Rest()), src.Rest())
    decreases Height(t), 0, 0
  {
    hide ReadFrom, ReadAll, Kept, Kids, KidTargets, Height, HeightAll;
    ghost var input := src.Rest();
    var ts := Kids(t, 0);
    KidsHeight(t, 0);
    var targets := KidTargets(t, target, ts);
    var ok, sum, objs := Components(be, src, Narrows(t, be), ts, targets);
    rc := if ok then sum else -1;
    obj := OList(objs);
    ArrayIs(be, t, target, input);
  }

  /** The number in front of a bounded array, or of a variant's content. */
  method WordRead(be: Backend, src: Source) returns (rc: int, n: nat)
    requires src.Valid() && !be.File?
    modifies src
    ensures src.Valid()
    ensures match ReadWord(old(src.Rest()))
            case Head(word, used) => rc == used == 8 && n == word && src.Rest() == old(src.Rest())[8..]
            case NoHead(used) => rc == -1 && used == |old(src.Rest())| && src.Rest() == []
  {
    var x;
    rc, x := ScalarRead(be, src, TInt(8), 8, OInt(0));
    n := x.bits;
  }

  method BoundedArrayRead(be: Backend, src: Source, t: Ty, target: Obj) returns (rc: int, obj: Obj)
    requires src.Valid() && !be.File? && t.TBounded?
    modifies src
    ensures src.Valid() && ReadBy(ReadFrom(be, t, target, old(src.Rest())), rc, obj, old(src.Rest()), src.Rest())
    decreases Height(t), 0, 0
  {
    hide ReadFrom, ReadAll, ReadWord, KidTargets, Height, HeightAll, Kids, FromBytes;
    ghost var input := src.Rest();
    obj := target;
    var bytesRead, n := WordRead(be, src);
    if bytesRead == 8 && n == t.n {
      var ts := Kids(t, n);
      KidsHeight(t, n);
      var ok, sum, objs := Components(be, src, false, ts, KidTargets(t, target, ts));
      rc := if ok then bytesRead + sum else -1;
      obj := OList(objs);
      BoundedIs(be, t, target, input);
      FromTwice(input, 8, ReadAll(be, false, ts, KidTargets(t, target, ts), input[8..]).used);
    } else {
      rc := -1;
      Headless(be, t, target, input);
    }
  }

  method OptionalRead(be: Backend, src: Source, t: Ty, target: Obj) returns (rc: int, obj: Obj)
    requires src.Valid() && !be.File? && t.TOptional?
    modifies src
    ensures src.Valid() && ReadBy(ReadFrom(be, t, target, old(src.Rest())), rc, obj, old(src.Rest()), src.Rest())
    decreases Height(t), 0, 0
  {
    hide ReadFrom, ReadAll;
    ghost var input := src.Rest();
    var bytesRead, flag := ScalarRead(be, src, TBool, 1, OBool(false));
    obj := target;
    if bytesRead <= 0 {
      Headless(be, t, target, input);
      return -1, obj;
    }
    rc := bytesRead;
    if flag.b {
      var part := KidTargets(t, target, [t.elem])[0];
      EngagedReading(be, t, target, input);
      FromTwice(input, 1, ReadFrom(be, t.elem, part, input[1..]).used);
      var x;
      bytesRead, x := Read(be, src, t.elem, part);
      rc := if bytesRead > 0 then rc + bytesRead else -1;
      obj := OList([x]);
    } else {
      EmptyReading(be, t, target, input);
    }
  }

  method VariantRead(be: Backend, src: Source, t: Ty, target: Obj) returns (rc: int, obj: Obj)
    requires src.Valid() && !be.File? && t.TVariant?
    modifies src
    ensures src.Valid() && ReadBy(ReadFrom(be, t, target, old(src.Rest())), rc, obj, old(src.Rest()), src.Rest())
    decreases Height(t), 0, 0
  {
    hide ReadFrom, ReadAll, Default, ReadWord;
    ghost var input := src.Rest();
    rc, obj := -1, target;
    var bytesRead, index := WordRead(be, src);
    if bytesRead <= 0 || index >= |t.alts| {
      NoAlternative(be, t, target, input);
      rc := if bytesRead > 0 && !be.Descriptor? then bytesRead else -1;
      return;
    }
    AltHeight(t.alts, index);
    ghost var rest := src.Rest();
    var count, x := Read(be, src, t.alts[index], Default(t.alts[index]));
    if be.Descriptor? {
      rc := if count >= 0 then bytesRead + count else -1;
    } else {
      rc := count;
      rc := rc + bytesRead;
    }
    obj := OAlt(index, x);
    VariantReadBy(be, t, target, input, rest, count, rc, x, src.Rest());
  }

  /** ContainerRead, and PairAssocContRead, whose reading of a key and a value is that of
      a pair of new objects. */
  method ContainerRead(be: Backend, src: Source, t: Ty, target: Obj) returns (rc: int, obj: Obj)
    requires src.Valid() && !be.File? && (t.TCont? || t.TMap?)
    modifies src
    ensures src.Valid() && ReadBy(ReadFrom(be, t, target, old(src.Rest())), rc, obj, old(src.Rest()), src.Rest())
    decreases Height(t), 0, 2
  {
    hide ReadFrom, ReadAll, Gather, Defaults, Copies, ReadCount;
    ghost var input := src.Rest();
    obj := Emptied(t);
    rc := -1;
    var bytesRead, numEntries := CountRead(be.native, src);
    if bytesRead > 0 {
      ghost var rest, ts := src.Rest(), Copies(ElemType(t), numEntries);
      ghost var m := ReadAll(be, false, ts, Defaults(ts), rest);
      var ok, sum;
      ok, sum, obj := ElementsRead(be, src, t, numEntries);
      rc := if ok then bytesRead + sum else -1;
      ContainerReadBy(be, t, target, input, rest, m, ok, sum, rc, obj, src.Rest());
    } else {
      Headless(be, t, target, input);
    }
  }

  /** The loop that inserts the elements into the emptied container. */
  method ElementsRead(be: Backend, src: Source, t: Ty, n: nat) returns (ok: bool, rc: int, obj: Obj)
    requires src.Valid() && !be.File? && (t.TCont? || t.TMap?)
    modifies src
    ensures src.Valid()
    ensures var ts := Copies(ElemType(t), n);
            ElementsBy(t, n, ReadAll(be, false, ts, Defaults(ts), old(src.Rest())), ok, rc, obj,
                       old(src.Rest()), src.Rest())
    decreases Height(t), 0, 1
  {
    hide ReadFrom, ReadAll, Gather, Defaults, Copies, Insert, Emptied;
    var e := ElemType(t);
    ghost var input: seq<Byte>, at: nat := src.Rest(), 0;
    ghost var ts, objs := Copies(e, n), [];
    AtStart(be, false, ts, Defaults(ts), input);
    GatherNone(t);
    rc, obj := 0, Emptied(t);
    var i := 0;
    while i < n
      invariant i <= n && src.Valid() && at <= |input| && src.Rest() == input[at..]
      invariant Midway(be, false, ts, Defaults(ts), input, i, rc, objs, at) && obj == Gather(t, objs)
    {
      DefaultsAt(e, n, i);
      var bytesRead, val;
      bytesRead, val, at := NextComponent(be, src, false, e, Default(e), ts, Defaults(ts), input, i, rc, objs, at);
      if bytesRead <= 0 {
        KeptObjects(objs, val, Defaults(ts)[i + 1..]);
        return false, rc, obj;
      }
      GatherAppend(t, objs, val);
      rc, obj, objs, i := rc + bytesRead, Insert(obj, val), objs + [val], i + 1;
    }
    AtEnd(be, false, ts, Defaults(ts), input, rc, objs, at);
    assert objs[..n] == objs;
    ok := true;
  }

  // Writing

  method ScalarWrite(w: Backend, sink: Sink, t: Ty, v: Val, bytes: seq<Byte>) returns (rc: int)
    requires WellTyped(t, v) && (t.TInt? || t.TBool? || t.TFloat?) && bytes == EncodeLeaf(w, t, v) && !w.File?
    modifies sink
    ensures WroteBy(w, t, v, rc, old(sink.data), old(sink.room), sink.data, sink.room)
    ensures t.TInt? && t.width <= old(sink.room) ==>
              old(sink.data) <= sink.data && Spells(Big, sink.data[|old(sink.data)|..], v.bits)
  {
    hide ToBytes, Spells;
    if t.TInt? {
      WordSpells(Big, v.bits, t.width);
    }
    var n := sink.Write(bytes);
    rc := if n == |bytes| then n else ShortWrite(w, t, n);
    LeafWroteBy(w, t, v, rc, old(sink.data), old(sink.room), sink.data, sink.room);
  }

  /** An EncodedU64 in front of what it counts. */
  method CountWrite(native: Endian, sink: Sink, n: nat) returns (rc: int)
    requires n < Pow256(8)
    modifies sink
    ensures var wire := Wire(native, false, n, 8);
            && sink.data == old(sink.data) + Clip(wire, old(sink.room))
            && sink.room == old(sink.room) - |Clip(wire, old(sink.room))|
            && rc == if |wire| <= old(sink.room) then |wire| else -1
  {
    var count := new EncodedUnsigned(8, native, n);
    rc := count.Write(sink);
  }

  method StringWrite(w: Backend, sink: Sink, v: Val) returns (rc: int)
    requires WellTyped(TString, v) && !w.File?
    modifies sink
    ensures WroteBy(w, TString, v, rc, old(sink.data), old(sink.room), sink.data, sink.room)
  {
    hide Wire, ToBytes, WroteBy, WriteLeaf, EncodeLeaf;
    StringCount(w, v, sink.room);
    ghost var data, room := sink.data, sink.room;
    ghost var head := LengthBytes(w, |v.chars|);
    rc := -1;
    var bytesWritten := CountWrite(w.native, sink, |v.chars|);
    BothClipped(data, head, v.chars, room);
    if 1 < bytesWritten {
      rc := bytesWritten;
      var n := sink.Write(v.chars);
      if n == |v.chars| {
        rc := rc + n;
      } else {
        rc := -1;
      }
    }
    LeafWroteBy(w, TString, v, rc, data, room, sink.data, sink.room);
  }

  method Write(w: Backend, sink: Sink, t: Ty, v: Val) returns (rc: int)
    requires WellTyped(t, v) && !w.File?
    modifies sink
    ensures WroteBy(w, t, v, rc, old(sink.data), old(sink.room), sink.data, sink.room)
    decreases v, 1
  {
    hide WriteTo, Encode, AllWellTyped, Solid;
    match t
    case TInt(width) => rc := ScalarWrite(w, sink, t, v, ToBytes(Big, v.bits, width));
    case TBool => rc := ScalarWrite(w, sink, t, v, [if v.b then 1 else 0]);
    case TFloat(_) => rc := ScalarWrite(w, sink, t, v, v.xdr);
    case TString => rc := StringWrite(w, sink, v);
    case TMono =>
      rc := 0;
      assert sink.data + Clip([], sink.room) == sink.data;
      LeafWroteBy(w, t, v, rc, sink.data, sink.room, sink.data, sink.room);
    case TPair(_, _) => rc := ArrayWrite(w, sink, t, v);
    case TTuple(_) => rc := ArrayWrite(w, sink, t, v);
    case TArray(_, _) => rc := ArrayWrite(w, sink, t, v);
    case TBounded(_, _) => rc := BoundedArrayWrite(w, sink, t, v);
    case TCont(_, _) => rc := ContainerWrite(w, sink, t, v);
    case TMap(_, _, _) => rc := ContainerWrite(w, sink, t, v);
    case TVariant(_) => rc := VariantWrite(w, sink, t, v);
    case TOptional(_) => rc := OptionalWrite(w, sink, t, v);
  }

  /** The loop over the components of an array, the members of a tuple or a pair, or the
      elements of a container. It stops at the first that fails. */
  method RangeWrite(w: Backend, sink: Sink, narrow: bool, ts: seq<Ty>, vs: seq<Val>) returns (ok: bool, rc: int)
    requires AllWellTyped(ts, vs) && !w.File?
    modifies sink
    ensures AllWrote(WriteAll(w, narrow, ts, vs, old(sink.room)), |ts|, ok, rc, old(sink.data), old(sink.room),
                     sink.data, sink.room)
    ensures ok ==> if ts == [] then rc == 0 else rc > 0
    ensures ts == [] ==> ok
    decreases vs, 2
  {
    hide WriteTo, WriteAll, WellTyped, AllWellTyped, Kept, HalfWritten;
    ghost var data, room := sink.data, sink.room;
    ghost var sent: seq<Byte> := [];
    WriteStart(w, narrow, ts, vs, room);
    rc := 0;
    var i := 0;
    while i < |ts|
      invariant i <= |ts| && HalfWritten(w, narrow, ts, vs, room, i, rc, sent) && if i == 0 then rc == 0 else rc > 0
      invariant sink.data == data + sent && sink.room == room - |sent|
    {
      HalfWay(w, narrow, ts, vs, room, i, rc, sent);
      ghost var r := WriteTo(w, ts[i], vs[i], sink.room);
      var count := Write(w, sink, ts[i], vs[i]);
      count := Kept(narrow, count);
      WriteNext(w, narrow, ts, vs, room, i, rc, sent, r, count);
      assert data + sent + r.sent == data + (sent + r.sent);
      if count <= 0 {
        return false, -1;
      }
      sent, rc, i := sent + r.sent, rc + count, i + 1;
    }
    WriteEnd(w, narrow, ts, vs, room, rc, sent);
    ok := true;
  }

  /** Pairs, std::array and std::tuple: the components, and nothing else. */
  method ArrayWrite(w: Backend, sink: Sink, t: Ty, v: Val) returns (rc: int)
    requires WellTyped(t, v) && !w.File? && (t.TPair? || t.TTuple? || t.TArray?)
    modifies sink
    ensures WroteBy(w, t, v, rc, old(sink.data), old(sink.room), sink.data, sink.room)
    decreases v, 0
  {
    hide WriteTo, WriteAll, Encode, EncodeAll, AllWellTyped, Solid, AllSolid, Kept;
    ghost var data, room := sink.data, sink.room;
    var ok, sum := RangeWrite(w, sink, Narrows(t, w), Kids(t, |v.items|), v.items);
    rc := if ok then sum else -1;
    assert data + [] == data;
    ListWroteBy(w, t, v, data, room, data, room, ok, sum, rc, sink.data, sink.room);
  }

  method WordWrite(w: Backend, sink: Sink, n: nat) returns (rc: int)
    requires n < Pow256(8) && !w.File?
    modifies sink
    ensures var bytes := ToBytes(Big, n, 8);
            && sink.data == old(sink.data) + Clip(bytes, old(sink.room))
            && sink.room == old(sink.room) - |Clip(bytes, old(sink.room))|
    ensures rc == if 8 <= old(sink.room) then 8 else if w.Descriptor? then old(sink.room) else -1
  {
    var bytes := ToBytes(Big, n, 8);
    var got := sink.Write(bytes);
    rc := if got == 8 then 8 else ShortWrite(w, TInt(8), got);
  }

  method BoundedArrayWrite(w: Backend, sink: Sink, t: Ty, v: Val) returns (rc: int)
    requires WellTyped(t, v) && !w.File? && t.TBounded?
    modifies sink
    ensures WroteBy(w, t, v, rc, old(sink.data), old(sink.room), sink.data, sink.room)
    decreases v, 0
  {
    hide WriteTo, WriteAll, Encode, EncodeAll, AllWellTyped, Solid, AllSolid, Kept, ToBytes;
    ghost var data, room := sink.data, sink.room;
    ItemsFit(t, v);
    var bytesWritten := WordWrite(w, sink, t.n);
    if bytesWritten == 8 {
      ghost var data', room' := sink.data, sink.room;
      var ok, sum := RangeWrite(w, sink, false, Kids(t, |v.items|), v.items);
      rc := if ok then bytesWritten + sum else -1;
      ListWroteBy(w, t, v, data, room, data', room', ok, sum, rc, sink.data, sink.room);
    } else {
      rc := -1;
      HeadRefused(w, t, v, rc, data, room, sink.data);
    }
  }

  method OptionalWrite(w: Backend, sink: Sink, t: Ty, v: Val) returns (rc: int)
    requires WellTyped(t, v) && !w.File? && t.TOptional?
    modifies sink
    ensures WroteBy(w, t, v, rc, old(sink.data), old(sink.room), sink.data, sink.room)
    decreases v, 0
  {
    hide WriteTo, WriteAll, Encode, EncodeAll, AllWellTyped, Solid, AllSolid, Kept;
    ghost var data, room := sink.data, sink.room;
    ItemsFit(t, v);
    var hasValue := v.items != [];
    var bytesWritten := sink.Write([if hasValue then 1 else 0]);
    if bytesWritten > 0 {
      ghost var data', room' := sink.data, sink.room;
      var ok, sum := RangeWrite(w, sink, false, Kids(t, |v.items|), v.items);
      rc := if ok then bytesWritten + sum else -1;
      ListWroteBy(w, t, v, data, room, data', room', ok, sum, rc, sink.data, sink.room);
    } else {
      rc := -1;
      HeadRefused(w, t, v, rc, data, room, sink.data);
    }
  }

  method VariantWrite(w: Backend, sink: Sink, t: Ty, v: Val) returns (rc: int)
    requires WellTyped(t, v) && !w.File? && t.TVariant?
    modifies sink
    ensures WroteBy(w, t, v, rc, old(sink.data), old(sink.room), sink.data, sink.room)
    decreases v, 0
  {
    hide WriteTo, WriteAll, Encode, EncodeAll, AllWellTyped, Solid, AllSolid, ToBytes;
    ghost var data, room := sink.data, sink.room;
    rc := -1;
    var bytesWritten := WordWrite(w, sink, v.index);
    if bytesWritten > 0 {
      rc := bytesWritten;
      ghost var data', room' := sink.data, sink.room;
      bytesWritten := Write(w, sink, t.alts[v.index], v.content);
      ghost var count := bytesWritten;
      rc := if bytesWritten >= 0 then rc + bytesWritten else -1;
      VariantWroteBy(w, t, v, data, room, data', room', count, rc, sink.data, sink.room);
    } else {
      IndexRefused(w, t, v, rc, data, room, sink.data);
    }
  }

  /** ContainerWrite keeps what the range returns in a uint64_t, where -1 is positive; the
      sum is 64 bits wide, so that the head's length less one is what comes out. */
  method ContainerWrite(w: Backend, sink: Sink, t: Ty, v: Val) returns (rc: int)
    requires WellTyped(t, v) && !w.File? && (t.TCont? || t.TMap?)
    modifies sink
    ensures WroteBy(w, t, v, rc, old(sink.data), old(sink.room), sink.data, sink.room)
    decreases v, 0
  {
    hide WriteTo, WriteAll, Encode, EncodeAll, AllWellTyped, Solid, AllSolid, Kept, Wire, Kids, WroteBy, HeadBytes;
    ghost var data, room := sink.data, sink.room;
    var vs := v.items;
    var ts := Kids(t, |vs|);
    ItemsFit(t, v);
    CountInFront(w, t, |vs|);
    rc := -1;
    var head := CountWrite(w.native, sink, |vs|);
    if head > 0 {
      ghost var data', room' := sink.data, sink.room;
      rc := head;
      var ok, sum := RangeWrite(w, sink, false, ts, vs);
      if vs != [] {
        var bytesWritten := if ok then sum else TWO_TO_64 - 1;
        rc := if bytesWritten > 0 then rc + bytesWritten else -1;
        if !ok {
          rc := rc - TWO_TO_64;
        }
      }
      ListWroteBy(w, t, v, data, room, data', room', ok, sum, rc, sink.data, sink.room);
    } else {
      HeadRefused(w, t, v, rc, data, room, sink.data);
    }
  }
}
