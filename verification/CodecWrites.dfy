/** What Write returns, for every amount of room in the stream. */
module CodecWrites {
  import opened Bytes
  import opened EncodedInteger
  import opened CodecTypes
  import opened Codec
  import opened CodecRoundTrip
  import opened CodecTruncation

  /** Whether the backend reports every write of `v` that the stream cuts short. Integers
      come back with the count of the bytes accepted, and a container's -1 is lost on its
      way through an unsigned variable. */
  ghost predicate Reporting(w: Backend, t: Ty, v: Val)
    requires WellTyped(t, v)
    decreases v, 0
  {
    w.File? || match t
    case TInt(width) => width == 1 || (width == 8 && !w.Descriptor?)
    case TBool => true
    case TFloat(_) => true
    case TString => true
    case TMono => true
    case TCont(_, _) => v.items == []
    case TMap(_, _, _) => v.items == []
    case TVariant(ts) =>
      var content := |Encode(w, t.alts[v.index], v.content)|;
      if content == 0 then !w.Descriptor? else Reporting(w, t.alts[v.index], v.content) && !OneByte(t.alts[v.index])
    case _ => v.items == [] || LastReporting(w, Kids(t, |v.items|), v.items)
  }

  ghost predicate LastReporting(w: Backend, ts: seq<Ty>, vs: seq<Val>)
    requires AllWellTyped(ts, vs)
    decreases vs, 1
  {
    ts != [] && if |ts| == 1 then Reporting(w, ts[0], vs[0]) else LastReporting(w, ts[1..], vs[1..])
  }

  /** A write that the stream accepts whole. */
  ghost predicate Accepted(be: Backend, r: Writing, size: nat) {
    r.Used() == size && if be.File? then r.rc > 0 else r.rc == size
  }

  /** The outcome of writing `size` bytes into room for `room`. */
  ghost predicate Refused(be: Backend, t: Ty, r: Writing, room: nat, size: nat, reporting: bool) {
    && r.Used() == room
    && (reporting ==> r.rc <= 0 && (r.rc == Fail(be) || OneByte(t)))
    && (!reporting && room == size - 1 ==> r.rc > 0)
  }

  ghost predicate AllRefused(m: Writings, n: nat, room: nat, size: nat, reporting: bool) {
    && m.Used() == room && m.n <= n && m.rc >= m.n
    && (reporting ==> m.n < n)
    && (!reporting && room == size - 1 ==> m.n == n)
  }

  // Sizes

  lemma ListSizeIs(w: Backend, t: Ty, v: Val)
    requires IsList(t) && WellTyped(t, v)
    ensures |Encode(w, t, v)| == |HeadBytes(w, t, |v.items|)| + |EncodeAll(w, Kids(t, |v.items|), v.items)|
  {
  }

  lemma AllSizeIs(w: Backend, ts: seq<Ty>, vs: seq<Val>)
    requires AllWellTyped(ts, vs) && ts != []
    ensures |EncodeAll(w, ts, vs)| == |Encode(w, ts[0], vs[0])| + |EncodeAll(w, ts[1..], vs[1..])|
  {
  }

  // One step of a write

  lemma WriteAllStep(w: Backend, narrow: bool, ts: seq<Ty>, vs: seq<Val>, room: nat)
    requires AllWellTyped(ts, vs) && ts != [] && Kept(narrow, WriteTo(w, ts[0], vs[0], room).rc) > 0
    ensures var r := WriteTo(w, ts[0], vs[0], room);
            var m := WriteAll(w, narrow, ts[1..], vs[1..], room - r.Used());
            WriteAll(w, narrow, ts, vs, room) == Writings(1 + m.n, Kept(narrow, r.rc) + m.rc, r.sent + m.sent)
  {
    hide Kept, WriteTo;
  }

  lemma WriteAllStops(w: Backend, narrow: bool, ts: seq<Ty>, vs: seq<Val>, room: nat)
    requires AllWellTyped(ts, vs) && ts != [] && Kept(narrow, WriteTo(w, ts[0], vs[0], room).rc) <= 0
    ensures WriteAll(w, narrow, ts, vs, room) == Writings(0, 0, WriteTo(w, ts[0], vs[0], room).sent)
  {
    hide Kept, WriteTo;
  }

  lemma WriteListStep(w: Backend, t: Ty, v: Val, room: nat)
    requires IsList(t) && WellTyped(t, v) && |HeadBytes(w, t, |v.items|)| <= room
    ensures var ts, head := Kids(t, |v.items|), HeadBytes(w, t, |v.items|);
            WriteTo(w, t, v, room)
            == FinishWrite(w, t, head, |ts|, WriteAll(w, Narrows(t, w), ts, v.items, room - |head|))
  {
  }

  lemma WriteVariantStep(w: Backend, t: Ty, v: Val, room: nat)
    requires t.TVariant? && WellTyped(t, v)
    ensures var head := Clip(ToBytes(Big, v.index, 8), room);
            var r := WriteTo(w, t.alts[v.index], v.content, room - |head|);
            WriteTo(w, t, v, room)
            == if |head| < 8 && !(w.Descriptor? && room > 0) then Writing(Fail(w), head)
               else Writing(if w.File? then r.rc else if r.rc >= 0 then |head| + r.rc else -1, head + r.sent)
  {
  }

  lemma LeafSends(w: Backend, t: Ty, v: Val, room: nat)
    requires WellTyped(t, v) && !IsList(t) && !t.TVariant?
    ensures WriteTo(w, t, v, room).sent == Clip(Encode(w, t, v), room)
  {
  }

  lemma HeadTooLong(w: Backend, t: Ty, v: Val, room: nat)
    requires IsList(t) && WellTyped(t, v) && room < |HeadBytes(w, t, |v.items|)|
    ensures WriteTo(w, t, v, room) == Writing(Fail(w), HeadBytes(w, t, |v.items|)[..room])
  {
    hide WriteAll;
  }

  lemma ListSent(w: Backend, t: Ty, v: Val, room: nat)
    requires IsList(t) && WellTyped(t, v)
    ensures var ts, head := Kids(t, |v.items|), HeadBytes(w, t, |v.items|);
            WriteTo(w, t, v, room).sent
            == if room < |head| then head[..room]
               else head + WriteAll(w, Narrows(t, w), ts, v.items, room - |head|).sent
  {
    hide WriteAll, HeadBytes, Kids;
  }

  // What the stream accepts is a part of the encoding

  lemma {:induction false} AcceptsNoMore(w: Backend, t: Ty, v: Val, room: nat)
    requires WellTyped(t, v)
    ensures WriteTo(w, t, v, room).Used() <= |Encode(w, t, v)|
    decreases v, 0
  {
    hide WriteTo, Encode, ToBytes;
    if IsList(t) {
      ListAcceptsNoMore(w, t, v, room);
    } else if t.TVariant? {
      VariantSizeIs(w, t, v);
      AcceptsNoMore(w, t.alts[v.index], v.content, room - Min(8, room));
      WriteVariantStep(w, t, v, room);
    } else {
      LeafSends(w, t, v, room);
    }
  }

  lemma {:induction false} ListAcceptsNoMore(w: Backend, t: Ty, v: Val, room: nat)
    requires IsList(t) && WellTyped(t, v)
    ensures WriteTo(w, t, v, room).Used() <= |Encode(w, t, v)|
    decreases v.items, 2
  {
    hide WriteTo, WriteAll, Encode, EncodeAll, HeadBytes, Kids, Narrows;
    var vs := v.items;
    var ts, head := Kids(t, |vs|), HeadBytes(w, t, |vs|);
    ListSizeIs(w, t, v);
    ListSent(w, t, v, room);
    if |head| <= room {
      AllAcceptNoMore(w, Narrows(t, w), ts, vs, room - |head|);
    }
  }

  lemma {:induction false} AllAcceptNoMore(w: Backend, narrow: bool, ts: seq<Ty>, vs: seq<Val>, room: nat)
    requires AllWellTyped(ts, vs)
    ensures WriteAll(w, narrow, ts, vs, room).Used() <= |EncodeAll(w, ts, vs)|
    decreases vs, 1
  {
    hide WriteTo, EncodeAll, Encode;
    if ts != [] {
      AllSizeIs(w, ts, vs);
      AcceptsNoMore(w, ts[0], vs[0], room);
      AllAcceptNoMore(w, narrow, ts[1..], vs[1..], room - WriteTo(w, ts[0], vs[0], room).Used());
    }
  }

  // Counts never exceed what was accepted

  ghost predicate WriteInBounds(r: Writing) {
    -1 <= r.rc <= r.Used()
  }

  lemma LeafWriteBound(w: Backend, t: Ty, v: Val, room: nat)
    requires WellTyped(t, v) && !IsList(t) && !t.TVariant? && !w.File?
    ensures WriteInBounds(WriteTo(w, t, v, room))
  {
  }

  lemma FinishInBounds(w: Backend, t: Ty, v: Val, room: nat)
    requires IsList(t) && WellTyped(t, v) && !w.File? && |HeadBytes(w, t, |v.items|)| <= room
    requires var m := WriteAll(w, Narrows(t, w), Kids(t, |v.items|), v.items, room - |HeadBytes(w, t, |v.items|)|);
             0 <= m.rc <= m.Used()
    ensures WriteInBounds(WriteTo(w, t, v, room))
  {
    WriteListStep(w, t, v, room);
  }

  lemma VariantInBounds(w: Backend, t: Ty, v: Val, room: nat)
    requires t.TVariant? && WellTyped(t, v) && !w.File?
    requires WriteInBounds(WriteTo(w, t.alts[v.index], v.content, room - Min(8, room)))
    ensures WriteInBounds(WriteTo(w, t, v, room))
  {
    WriteVariantStep(w, t, v, room);
  }

  lemma {:induction false} WriteBound(w: Backend, t: Ty, v: Val, room: nat)
    requires WellTyped(t, v) && !w.File?
    ensures WriteInBounds(WriteTo(w, t, v, room))
    decreases v, 0
  {
    hide WriteTo, WriteInBounds;
    if IsList(t) {
      ListWriteBound(w, t, v, room);
    } else if t.TVariant? {
      WriteBound(w, t.alts[v.index], v.content, room - Min(8, room));
      VariantInBounds(w, t, v, room);
    } else {
      LeafWriteBound(w, t, v, room);
    }
  }

  lemma {:induction false} ListWriteBound(w: Backend, t: Ty, v: Val, room: nat)
    requires IsList(t) && WellTyped(t, v) && !w.File?
    ensures WriteInBounds(WriteTo(w, t, v, room))
    decreases v.items, 2
  {
    hide WriteTo, WriteAll, HeadBytes, Kids;
    if |HeadBytes(w, t, |v.items|)| <= room {
      AllWriteBound(w, Narrows(t, w), Kids(t, |v.items|), v.items, room - |HeadBytes(w, t, |v.items|)|);
      FinishInBounds(w, t, v, room);
    } else {
      HeadTooLong(w, t, v, room);
    }
  }

  lemma {:induction false} AllWriteBound(w: Backend, narrow: bool, ts: seq<Ty>, vs: seq<Val>, room: nat)
    requires AllWellTyped(ts, vs) && !w.File?
    ensures var m := WriteAll(w, narrow, ts, vs, room); 0 <= m.rc <= m.Used()
    decreases vs, 1
  {
    hide WriteTo, Encode, EncodeAll, Kept;
    if ts != [] {
      AllSizeIs(w, ts, vs);
      WriteBound(w, ts[0], vs[0], room);
      KeptShrinks(narrow, WriteTo(w, ts[0], vs[0], room).rc);
      AllWriteBound(w, narrow, ts[1..], vs[1..], room - WriteTo(w, ts[0], vs[0], room).Used());
    }
  }

  // Room enough

  ghost predicate AllWritten(be: Backend, m: Writings, n: nat, size: nat) {
    m.n == n && m.Used() == size && if be.File? then m.rc >= n else m.rc == size
  }

  lemma FinishAccepted(w: Backend, t: Ty, v: Val, room: nat)
    requires IsList(t) && WellTyped(t, v) && |HeadBytes(w, t, |v.items|)| <= room
    requires var ts := Kids(t, |v.items|);
             AllWritten(w, WriteAll(w, Narrows(t, w), ts, v.items, room - |HeadBytes(w, t, |v.items|)|), |ts|,
                        |EncodeAll(w, ts, v.items)|)
    ensures Accepted(w, WriteTo(w, t, v, room), |Encode(w, t, v)|)
  {
    ListSizeIs(w, t, v);
    ItemsFit(t, v);
    WriteListStep(w, t, v, room);
  }

  lemma ContentAccepted(w: Backend, t: Ty, v: Val, room: nat)
    requires t.TVariant? && WellTyped(t, v) && room >= 8
    requires Accepted(w, WriteTo(w, t.alts[v.index], v.content, room - 8), |Encode(w, t.alts[v.index], v.content)|)
    ensures Accepted(w, WriteTo(w, t, v, room), |Encode(w, t, v)|)
  {
    VariantSizeIs(w, t, v);
    WriteVariantStep(w, t, v, room);
  }

  lemma LeafAccepted(w: Backend, t: Ty, v: Val, room: nat)
    requires WellTyped(t, v) && !IsList(t) && !t.TVariant? && |Encode(w, t, v)| <= room
    ensures Accepted(w, WriteTo(w, t, v, room), |Encode(w, t, v)|)
  {
  }

  /** With room for all of it, a write succeeds and returns its length, or from FileIO a
      positive number. */
  lemma {:induction false} WriteAccepted(w: Backend, t: Ty, v: Val, room: nat)
    requires WellTyped(t, v) && (w.File? || Solid(w, t, v))
    requires |Encode(w, t, v)| <= room
    ensures Accepted(w, WriteTo(w, t, v, room), |Encode(w, t, v)|)
    decreases v, 0
  {
    hide WriteTo, Encode, HeadBytes;
    if IsList(t) {
      ListAccepted(w, t, v, room);
    } else if t.TVariant? {
      VariantSizeIs(w, t, v);
      WriteAccepted(w, t.alts[v.index], v.content, room - 8);
      ContentAccepted(w, t, v, room);
    } else {
      LeafAccepted(w, t, v, room);
    }
  }

  lemma {:induction false} ListAccepted(w: Backend, t: Ty, v: Val, room: nat)
    requires IsList(t) && WellTyped(t, v) && (w.File? || Solid(w, t, v))
    requires |Encode(w, t, v)| <= room
    ensures Accepted(w, WriteTo(w, t, v, room), |Encode(w, t, v)|)
    decreases v.items, 2
  {
    hide WriteTo, WriteAll, Encode, EncodeAll, HeadBytes, Kids;
    ListSizeIs(w, t, v);
    AllAccepted(w, Narrows(t, w), Kids(t, |v.items|), v.items, room - |HeadBytes(w, t, |v.items|)|);
    FinishAccepted(w, t, v, room);
  }

  lemma NothingToWrite(w: Backend, narrow: bool, ts: seq<Ty>, vs: seq<Val>, room: nat)
    requires ts == [] && AllWellTyped(ts, vs)
    ensures WriteAll(w, narrow, ts, vs, room) == Writings(0, 0, []) && EncodeAll(w, ts, vs) == []
  {
  }

  lemma FirstAccepted(w: Backend, narrow: bool, ts: seq<Ty>, vs: seq<Val>, room: nat, size: nat, rest: nat)
    requires AllWellTyped(ts, vs) && ts != [] && size <= room
    requires Accepted(w, WriteTo(w, ts[0], vs[0], room), size)
    requires if w.File? then !narrow else Counts(narrow, size)
    requires AllWritten(w, WriteAll(w, narrow, ts[1..], vs[1..], room - size), |ts[1..]|, rest)
    ensures AllWritten(w, WriteAll(w, narrow, ts, vs, room), |ts|, size + rest)
  {
    hide WriteTo, WriteAll;
    KeptShrinks(narrow, WriteTo(w, ts[0], vs[0], room).rc);
    WriteAllStep(w, narrow, ts, vs, room);
  }

  lemma {:induction false} AllAccepted(w: Backend, narrow: bool, ts: seq<Ty>, vs: seq<Val>, room: nat)
    requires AllWellTyped(ts, vs) && (w.File? || AllSolid(w, narrow, ts, vs)) && !(w.File? && narrow)
    requires |EncodeAll(w, ts, vs)| <= room
    ensures AllWritten(w, WriteAll(w, narrow, ts, vs, room), |ts|, |EncodeAll(w, ts, vs)|)
    decreases vs, 1
  {
    hide WriteTo, WriteAll;
    if ts == [] {
      NothingToWrite(w, narrow, ts, vs, room);
    } else {
      AllSizeIs(w, ts, vs);
      WriteAccepted(w, ts[0], vs[0], room);
      AllAccepted(w, narrow, ts[1..], vs[1..], room - |Encode(w, ts[0], vs[0])|);
      FirstAccepted(w, narrow, ts, vs, room, |Encode(w, ts[0], vs[0])|, |EncodeAll(w, ts[1..], vs[1..])|);
    }
  }

  // A full stream

  /** Writing to a full stream never looks like success. */
  lemma {:induction false} NoRoom(w: Backend, t: Ty, v: Val)
    requires WellTyped(t, v) && |Encode(w, t, v)| > 0 && (w.File? || Solid(w, t, v))
    ensures WriteTo(w, t, v, 0).rc <= 0
    decreases v, 0
  {
    if IsList(t) {
      NoRoomForList(w, t, v);
    } else if t.TVariant? {
      WriteVariantStep(w, t, v, 0);
    }
  }

  lemma {:induction false} NoRoomForList(w: Backend, t: Ty, v: Val)
    requires IsList(t) && WellTyped(t, v) && |Encode(w, t, v)| > 0 && (w.File? || Solid(w, t, v))
    ensures WriteTo(w, t, v, 0).rc <= 0
    decreases v.items, 2
  {
    hide WriteTo, WriteAll, Encode, EncodeAll, HeadBytes, Kids;
    ListSizeIs(w, t, v);
    if |HeadBytes(w, t, |v.items|)| == 0 {
      ItemsFit(t, v);
      NoCount(w, t, |v.items|);
      NoRoomForAll(w, Narrows(t, w), Kids(t, |v.items|), v.items);
      WriteListStep(w, t, v, 0);
    } else {
      HeadTooLong(w, t, v, 0);
    }
  }

  /** Containers have heads. */
  lemma NoCount(w: Backend, t: Ty, n: nat)
    requires n < Pow256(8) && HeadBytes(w, t, n) == []
    ensures !t.TCont? && !t.TMap? && !t.TOptional?
  {
  }

  lemma {:induction false} NoRoomForAll(w: Backend, narrow: bool, ts: seq<Ty>, vs: seq<Val>)
    requires AllWellTyped(ts, vs) && |EncodeAll(w, ts, vs)| > 0 && (w.File? || AllSolid(w, narrow, ts, vs))
             && !(w.File? && narrow)
    ensures WriteAll(w, narrow, ts, vs, 0).n < |ts|
    ensures !w.File? ==> WriteAll(w, narrow, ts, vs, 0).n == 0
    decreases vs, 1
  {
    AllSizeIs(w, ts, vs);
    if |Encode(w, ts[0], vs[0])| > 0 {
      NoRoom(w, ts[0], vs[0]);
      if narrow {
        WriteBound(w, ts[0], vs[0], 0);
        KeptShrinks(narrow, WriteTo(w, ts[0], vs[0], 0).rc);
      }
    } else {
      NoRoomForAll(w, narrow, ts[1..], vs[1..]);
    }
  }

  // A write the stream cuts short

  lemma LeafRefused(w: Backend, t: Ty, v: Val, room: nat)
    requires WellTyped(t, v) && !IsList(t) && !t.TVariant? && room < |Encode(w, t, v)|
    ensures Refused(w, t, WriteTo(w, t, v, room), room, |Encode(w, t, v)|, Reporting(w, t, v))
  {
  }

  /** A write of an encoding that does not fit fills the stream. It reports failure if the
      backend is reporting about that value; if it is not, there is an amount of room, one
      byte too little, for which the write looks successful. */
  lemma {:induction false} WriteRefused(w: Backend, t: Ty, v: Val, room: nat)
    requires WellTyped(t, v) && (w.File? || Solid(w, t, v))
    requires room < |Encode(w, t, v)|
    ensures Refused(w, t, WriteTo(w, t, v, room), room, |Encode(w, t, v)|, Reporting(w, t, v))
    decreases v, 0
  {
    hide WriteTo, Encode, Reporting;
    if IsList(t) {
      ListRefused(w, t, v, room);
    } else if t.TVariant? {
      VariantRefused(w, t, v, room);
    } else {
      LeafRefused(w, t, v, room);
    }
  }

  lemma OneByteRefused(w: Backend, t: Ty, v: Val)
    requires WellTyped(t, v) && OneByte(t)
    ensures WriteTo(w, t, v, 0).rc == 0 && |Encode(w, t, v)| == 1
  {
  }

  lemma ContentRefused(w: Backend, t: Ty, v: Val, room: nat)
    requires t.TVariant? && WellTyped(t, v) && room < |Encode(w, t, v)| && |Encode(w, t.alts[v.index], v.content)| > 0
    requires var alt, rest := t.alts[v.index], room - Min(8, room);
             Refused(w, alt, WriteTo(w, alt, v.content, rest), rest, |Encode(w, alt, v.content)|,
                     Reporting(w, alt, v.content))
    ensures Refused(w, t, WriteTo(w, t, v, room), room, |Encode(w, t, v)|, Reporting(w, t, v))
  {
    hide WriteTo, Encode;
    VariantSizeIs(w, t, v);
    WriteVariantStep(w, t, v, room);
    if OneByte(t.alts[v.index]) {
      OneByteRefused(w, t.alts[v.index], v.content);
    }
  }

  lemma NoContentRefused(w: Backend, t: Ty, v: Val, room: nat)
    requires t.TVariant? && WellTyped(t, v) && room < |Encode(w, t, v)| && |Encode(w, t.alts[v.index], v.content)| == 0
    requires Accepted(w, WriteTo(w, t.alts[v.index], v.content, 0), 0)
    ensures Refused(w, t, WriteTo(w, t, v, room), room, |Encode(w, t, v)|, Reporting(w, t, v))
  {
    hide WriteTo, Encode;
    VariantSizeIs(w, t, v);
    WriteVariantStep(w, t, v, room);
  }

  lemma {:induction false} VariantRefused(w: Backend, t: Ty, v: Val, room: nat)
    requires t.TVariant? && WellTyped(t, v) && (w.File? || Solid(w, t, v))
    requires room < |Encode(w, t, v)|
    ensures Refused(w, t, WriteTo(w, t, v, room), room, |Encode(w, t, v)|, Reporting(w, t, v))
    decreases v.content, 2
  {
    hide WriteTo, Encode, Reporting;
    VariantSizeIs(w, t, v);
    if |Encode(w, t.alts[v.index], v.content)| > 0 {
      WriteRefused(w, t.alts[v.index], v.content, room - Min(8, room));
      ContentRefused(w, t, v, room);
    } else {
      WriteAccepted(w, t.alts[v.index], v.content, 0);
      NoContentRefused(w, t, v, room);
    }
  }

  /** A list is refused as far as its components are. */
  lemma FinishRefused(w: Backend, t: Ty, v: Val, room: nat, telling: bool)
    requires IsList(t) && WellTyped(t, v) && |HeadBytes(w, t, |v.items|)| <= room
    requires var head, ts := |HeadBytes(w, t, |v.items|)|, Kids(t, |v.items|);
             AllRefused(WriteAll(w, Narrows(t, w), ts, v.items, room - head), |ts|, room - head,
                        |EncodeAll(w, ts, v.items)|, telling)
    requires v.items != [] && (w.File? ==> telling)
    ensures Refused(w, t, WriteTo(w, t, v, room), room, |Encode(w, t, v)|,
                    w.File? || (telling && !t.TCont? && !t.TMap?))
  {
    ListSizeIs(w, t, v);
    ItemsFit(t, v);
    WriteListStep(w, t, v, room);
  }

  lemma ListReporting(w: Backend, t: Ty, v: Val)
    requires IsList(t) && WellTyped(t, v)
    ensures v.items == [] ==> Reporting(w, t, v)
    ensures v.items != [] ==>
              (Reporting(w, t, v) <==>
                 w.File? || (LastReporting(w, Kids(t, |v.items|), v.items) && !t.TCont? && !t.TMap?))
  {
  }

  lemma {:induction false} ListRefused(w: Backend, t: Ty, v: Val, room: nat)
    requires IsList(t) && WellTyped(t, v) && (w.File? || Solid(w, t, v))
    requires room < |Encode(w, t, v)|
    ensures Refused(w, t, WriteTo(w, t, v, room), room, |Encode(w, t, v)|, Reporting(w, t, v))
    decreases v.items, 2
  {
    hide WriteTo, WriteAll, Encode, Reporting, LastReporting, Kids, HeadBytes;
    var ts, head := Kids(t, |v.items|), |HeadBytes(w, t, |v.items|)|;
    ListSizeIs(w, t, v);
    ListReporting(w, t, v);
    ItemsFit(t, v);
    if head <= room {
      AllRefusedToo(w, Narrows(t, w), ts, v.items, room - head);
      FinishRefused(w, t, v, room, w.File? || LastReporting(w, ts, v.items));
    } else {
      if !w.File? && ts != [] {
        SolidTakesBytes(w, t.TTuple?, ts, v.items);
      }
      HeadTooLong(w, t, v, room);
    }
  }

  /** The first component does not fit: the others get no room. */
  lemma {:induction false} FirstRefused(w: Backend, narrow: bool, ts: seq<Ty>, vs: seq<Val>, room: nat)
    requires AllWellTyped(ts, vs) && ts != [] && (w.File? || AllSolid(w, narrow, ts, vs)) && !(w.File? && narrow)
    requires room < |Encode(w, ts[0], vs[0])|
    requires Refused(w, ts[0], WriteTo(w, ts[0], vs[0], room), room, |Encode(w, ts[0], vs[0])|,
                     Reporting(w, ts[0], vs[0]))
    ensures AllRefused(WriteAll(w, narrow, ts, vs, room), |ts|, room, |EncodeAll(w, ts, vs)|,
                       w.File? || LastReporting(w, ts, vs))
  {
    hide WriteTo, WriteAll;
    AllSizeIs(w, ts, vs);
    if !w.File? {
      WriteBound(w, ts[0], vs[0], room);
      KeptShrinks(narrow, WriteTo(w, ts[0], vs[0], room).rc);
      RestIsSolid(w, narrow, ts, vs);
    }
    if WriteTo(w, ts[0], vs[0], room).rc <= 0 {
      WriteAllStops(w, narrow, ts, vs, room);
    } else {
      WriteAllStep(w, narrow, ts, vs, room);
      AllWriteBound(w, narrow, ts[1..], vs[1..], 0);
      if |ts| == 1 {
        NothingToWrite(w, narrow, ts[1..], vs[1..], 0);
      } else {
        NoRoomForAll(w, narrow, ts[1..], vs[1..]);
      }
    }
  }

  /** The first component fits: the outcome is that of the others. */
  lemma RestRefused(w: Backend, narrow: bool, ts: seq<Ty>, vs: seq<Val>, room: nat, size: nat, rest: nat,
          reporting: bool)
    requires AllWellTyped(ts, vs) && ts != [] && size <= room
    requires Accepted(w, WriteTo(w, ts[0], vs[0], room), size)
    requires if w.File? then !narrow else Counts(narrow, size)
    requires AllRefused(WriteAll(w, narrow, ts[1..], vs[1..], room - size), |ts[1..]|, room - size, rest, reporting)
    ensures AllRefused(WriteAll(w, narrow, ts, vs, room), |ts|, room, size + rest, reporting)
  {
    hide WriteTo, WriteAll;
    KeptShrinks(narrow, WriteTo(w, ts[0], vs[0], room).rc);
    WriteAllStep(w, narrow, ts, vs, room);
  }

  lemma LastOfRest(w: Backend, ts: seq<Ty>, vs: seq<Val>)
    requires AllWellTyped(ts, vs) && ts != [] && |EncodeAll(w, ts[1..], vs[1..])| > 0
    ensures LastReporting(w, ts, vs) == LastReporting(w, ts[1..], vs[1..])
  {
    assert |ts[1..]| > 0;
  }

  lemma {:induction false} AllRefusedToo(w: Backend, narrow: bool, ts: seq<Ty>, vs: seq<Val>, room: nat)
    requires AllWellTyped(ts, vs) && (w.File? || AllSolid(w, narrow, ts, vs)) && !(w.File? && narrow)
    requires room < |EncodeAll(w, ts, vs)|
    ensures AllRefused(WriteAll(w, narrow, ts, vs, room), |ts|, room, |EncodeAll(w, ts, vs)|,
                       w.File? || LastReporting(w, ts, vs))
    decreases vs, 1
  {
    hide WriteTo, WriteAll, Encode, LastReporting;
    AllSizeIs(w, ts, vs);
    if room < |Encode(w, ts[0], vs[0])| {
      WriteRefused(w, ts[0], vs[0], room);
      FirstRefused(w, narrow, ts, vs, room);
    } else {
      WriteAccepted(w, ts[0], vs[0], room);
      AllRefusedToo(w, narrow, ts[1..], vs[1..], room - |Encode(w, ts[0], vs[0])|);
      LastOfRest(w, ts, vs);
      RestRefused(w, narrow, ts, vs, room, |Encode(w, ts[0], vs[0])|, |EncodeAll(w, ts[1..], vs[1..])|,
                  w.File? || LastReporting(w, ts, vs));
    }
  }

  // Success, exactly

  /** An aggregate with a component whose count is lost is never written successfully. */
  lemma {:induction false} HollowFails(w: Backend, t: Ty, v: Val, room: nat)
    requires WellTyped(t, v) && !w.File? && !Solid(w, t, v)
    ensures WriteTo(w, t, v, room).rc < |Encode(w, t, v)|
    decreases v, 0
  {
    hide WriteTo, Encode, ToBytes;
    if IsList(t) {
      HollowListFails(w, t, v, room);
    } else if t.TVariant? {
      VariantSizeIs(w, t, v);
      HollowFails(w, t.alts[v.index], v.content, room - Min(8, room));
      WriteVariantStep(w, t, v, room);
    }
  }

  lemma {:induction false} HollowListFails(w: Backend, t: Ty, v: Val, room: nat)
    requires IsList(t) && WellTyped(t, v) && !w.File? && !Solid(w, t, v)
    ensures WriteTo(w, t, v, room).rc < |Encode(w, t, v)|
    decreases v.items, 2
  {
    hide WriteTo, WriteAll, Encode, EncodeAll, HeadBytes, Kids;
    var vs := v.items;
    var ts, head := Kids(t, |vs|), HeadBytes(w, t, |vs|);
    ListSizeIs(w, t, v);
    ItemsFit(t, v);
    if |head| <= room {
      AllHollowFail(w, Narrows(t, w), ts, vs, room - |head|);
      WriteListStep(w, t, v, room);
    } else {
      HeadTooLong(w, t, v, room);
    }
  }

  lemma {:induction false} AllHollowFail(w: Backend, narrow: bool, ts: seq<Ty>, vs: seq<Val>, room: nat)
    requires AllWellTyped(ts, vs) && !w.File? && !AllSolid(w, narrow, ts, vs)
    ensures var m := WriteAll(w, narrow, ts, vs, room); m.n < |ts| || m.rc < |EncodeAll(w, ts, vs)|
    decreases vs, 1
  {
    hide WriteTo, WriteAll, Encode, EncodeAll;
    AllSizeIs(w, ts, vs);
    var r := WriteTo(w, ts[0], vs[0], room);
    WriteBound(w, ts[0], vs[0], room);
    AcceptsNoMore(w, ts[0], vs[0], room);
    KeptShrinks(narrow, r.rc);
    if Kept(narrow, r.rc) <= 0 {
      WriteAllStops(w, narrow, ts, vs, room);
    } else {
      WriteAllStep(w, narrow, ts, vs, room);
      AllWriteBound(w, narrow, ts[1..], vs[1..], room - r.Used());
      AllAcceptNoMore(w, narrow, ts[1..], vs[1..], room - r.Used());
      if !Solid(w, ts[0], vs[0]) {
        HollowFails(w, ts[0], vs[0], room);
      } else if Counts(narrow, |Encode(w, ts[0], vs[0])|) {
        AllHollowFail(w, narrow, ts[1..], vs[1..], room - r.Used());
      }
    }
  }

  /** The caller's test. FileIO returns a positive number exactly when the stream took the
      whole encoding. The others return its length exactly then, provided the value is
      solid; otherwise never. */
  lemma WriteSucceedsExactly(w: Backend, t: Ty, v: Val, room: nat)
    requires WellTyped(t, v)
    ensures w.File? ==> (WriteTo(w, t, v, room).rc > 0 <==> |Encode(w, t, v)| <= room)
    ensures !w.File? ==>
              (WriteTo(w, t, v, room).rc == |Encode(w, t, v)| <==> |Encode(w, t, v)| <= room && Solid(w, t, v))
  {
    if w.File? || Solid(w, t, v) {
      if |Encode(w, t, v)| <= room {
        WriteAccepted(w, t, v, room);
      } else if w.File? {
        WriteRefused(w, t, v, room);
      } else {
        WriteBound(w, t, v, room);
      }
    } else {
      HollowFails(w, t, v, room);
    }
  }

  // The bytes that a write leaves behind

  lemma ClipBoth(a: seq<Byte>, b: seq<Byte>, room: nat)
    ensures Clip(a + b, room) == Clip(a, room) + Clip(b, room - |Clip(a, room)|)
  {
  }

  /** FileIO, and any backend writing a solid value, leaves in the stream as much of the
      encoding as there is room for: there are no gaps, even where a failure goes unseen. */
  lemma {:induction false} SendsThePrefix(w: Backend, t: Ty, v: Val, room: nat)
    requires WellTyped(t, v) && (w.File? || Solid(w, t, v))
    ensures WriteTo(w, t, v, room).sent == Clip(Encode(w, t, v), room)
    decreases v, 0
  {
    hide WriteTo, ToBytes;
    if IsList(t) {
      ListSendsThePrefix(w, t, v, room);
    } else if t.TVariant? {
      var index := ToBytes(Big, v.index, 8);
      ClipBoth(index, Encode(w, t.alts[v.index], v.content), room);
      SendsThePrefix(w, t.alts[v.index], v.content, room - |Clip(index, room)|);
      WriteVariantStep(w, t, v, room);
    } else {
      LeafSends(w, t, v, room);
    }
  }

  lemma {:induction false} ListSendsThePrefix(w: Backend, t: Ty, v: Val, room: nat)
    requires IsList(t) && WellTyped(t, v) && (w.File? || Solid(w, t, v))
    ensures WriteTo(w, t, v, room).sent == Clip(Encode(w, t, v), room)
    decreases v.items, 2
  {
    hide WriteTo, WriteAll, EncodeAll, HeadBytes, Kids, Encode, Clip;
    var vs := v.items;
    var ts, head := Kids(t, |vs|), HeadBytes(w, t, |vs|);
    if |head| <= room {
      AllSendThePrefix(w, Narrows(t, w), ts, vs, room - |head|);
    }
    ListSends(w, t, v, room);
  }

  lemma ListSends(w: Backend, t: Ty, v: Val, room: nat)
    requires IsList(t) && WellTyped(t, v)
    requires var ts, head := Kids(t, |v.items|), HeadBytes(w, t, |v.items|);
             |head| <= room ==>
               WriteAll(w, Narrows(t, w), ts, v.items, room - |head|).sent
                 == Clip(EncodeAll(w, ts, v.items), room - |head|)
    ensures WriteTo(w, t, v, room).sent == Clip(Encode(w, t, v), room)
  {
    hide WriteTo, WriteAll, EncodeAll, HeadBytes, Kids, Encode;
    ListBytes(w, t, v);
    ClipBoth(HeadBytes(w, t, |v.items|), EncodeAll(w, Kids(t, |v.items|), v.items), room);
    ListSent(w, t, v, room);
  }

  lemma {:induction false} AllSendThePrefix(w: Backend, narrow: bool, ts: seq<Ty>, vs: seq<Val>, room: nat)
    requires AllWellTyped(ts, vs) && (w.File? || AllSolid(w, narrow, ts, vs)) && !(w.File? && narrow)
    ensures WriteAll(w, narrow, ts, vs, room).sent == Clip(EncodeAll(w, ts, vs), room)
    decreases vs, 1
  {
    hide WriteTo, WriteAll, Encode, Kept;
    if ts == [] {
      NothingToWrite(w, narrow, ts, vs, room);
    } else {
      var r := WriteTo(w, ts[0], vs[0], room);
      var first := Encode(w, ts[0], vs[0]);
      ClipBoth(first, EncodeAll(w, ts[1..], vs[1..]), room);
      SendsThePrefix(w, ts[0], vs[0], room);
      if Kept(narrow, r.rc) > 0 {
        AllSendThePrefix(w, narrow, ts[1..], vs[1..], room - |r.sent|);
        WriteAllStep(w, narrow, ts, vs, room);
      } else {
        FailsForWantOfRoom(w, narrow, ts[0], vs[0], room);
        WriteAllStops(w, narrow, ts, vs, room);
      }
    }
  }

  lemma FailsForWantOfRoom(w: Backend, narrow: bool, t: Ty, v: Val, room: nat)
    requires WellTyped(t, v) && !(w.File? && narrow)
             && (w.File? || (Solid(w, t, v) && Counts(narrow, |Encode(w, t, v)|)))
    requires Kept(narrow, WriteTo(w, t, v, room).rc) <= 0
    ensures room < |Encode(w, t, v)|
  {
    if |Encode(w, t, v)| <= room {
      WriteAccepted(w, t, v, room);
      KeptShrinks(narrow, WriteTo(w, t, v, room).rc);
      assert false;
    }
  }
}
