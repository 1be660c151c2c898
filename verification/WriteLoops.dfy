/** What a loop over components has written, and what it has yet to. */
module WriteLoops {
  import opened Bytes
  import opened EncodedInteger
  import opened CodecTypes
  import opened Codec
  import opened CodecRoundTrip
  import opened CodecLoops
  import opened CodecWrites

  /** A call that returns `rc` and takes the sink from `data` and `room` to `data'` and
      `room'` does what `r` says. */
  ghost predicate Wrote(r: Writing, rc: int, data: seq<Byte>, room: nat, data': seq<Byte>, room': nat) {
    rc == r.rc && data' == data + r.sent && room' == room - |r.sent|
  }

  /** The same for a call that writes `v`, whatever the value and whatever the room. */
  ghost predicate WroteBy(w: Backend, t: Ty, v: Val, rc: int, data: seq<Byte>, room: nat, data': seq<Byte>, room': nat)
    requires WellTyped(t, v)
  {
    Wrote(WriteTo(w, t, v, room), rc, data, room, data', room')
  }

  /** The same for a loop over `n` components; what it adds up counts if it succeeds. */
  ghost predicate AllWrote(m: Writings, n: nat, ok: bool, rc: int, data: seq<Byte>, room: nat, data': seq<Byte>,
                           room': nat)
  {
    ok == (m.n == n) && (ok ==> rc == m.rc) && data' == data + m.sent && room' == room - |m.sent|
  }

  /** How the first `i` components and the others combine. */
  function After(i: nat, rc: int, sent: seq<Byte>, m: Writings): Writings {
    Writings(i + m.n, rc + m.rc, sent + m.sent)
  }

  /** How a first writing and the others combine. */
  function Followed(narrow: bool, r: Writing, m: Writings): Writings {
    if Kept(narrow, r.rc) > 0 then Writings(1 + m.n, Kept(narrow, r.rc) + m.rc, r.sent + m.sent)
    else Writings(0, 0, r.sent)
  }

  /** The loop has written the first `i` components: `sent` is in the stream, with counts
      that add up to `rc`. */
  ghost predicate HalfWritten(w: Backend, narrow: bool, ts: seq<Ty>, vs: seq<Val>, room: nat, i: nat, rc: int,
                              sent: seq<Byte>)
    requires AllWellTyped(ts, vs)
  {
    && i <= |ts| && |sent| <= room && AllWellTyped(ts[i..], vs[i..])
    && WriteAll(w, narrow, ts, vs, room) == After(i, rc, sent, WriteAll(w, narrow, ts[i..], vs[i..], room - |sent|))
  }

  lemma HalfWay(w: Backend, narrow: bool, ts: seq<Ty>, vs: seq<Val>, room: nat, i: nat, rc: int, sent: seq<Byte>)
    requires AllWellTyped(ts, vs) && HalfWritten(w, narrow, ts, vs, room, i, rc, sent)
    ensures i <= |ts| && |sent| <= room
    ensures i < |ts| ==> WellTyped(ts[i], vs[i])
  {
    hide WriteAll;
    if i < |ts| {
      ComponentAt(ts, vs, i);
    }
  }

  lemma WriteStart(w: Backend, narrow: bool, ts: seq<Ty>, vs: seq<Val>, room: nat)
    requires AllWellTyped(ts, vs)
    ensures HalfWritten(w, narrow, ts, vs, room, 0, 0, [])
  {
    hide WriteAll;
    assert ts[0..] == ts && vs[0..] == vs;
    assert [] + WriteAll(w, narrow, ts, vs, room).sent == WriteAll(w, narrow, ts, vs, room).sent;
  }

  lemma WriteEnd(w: Backend, narrow: bool, ts: seq<Ty>, vs: seq<Val>, room: nat, rc: int, sent: seq<Byte>)
    requires AllWellTyped(ts, vs) && HalfWritten(w, narrow, ts, vs, room, |ts|, rc, sent)
    ensures WriteAll(w, narrow, ts, vs, room) == Writings(|ts|, rc, sent)
  {
    assert sent + [] == sent;
  }

  /** The components in order: the first, and the others if it succeeds. */
  lemma FirstThenRest(w: Backend, narrow: bool, ts: seq<Ty>, vs: seq<Val>, room: nat, t: Ty, v: Val, ts': seq<Ty>,
                      vs': seq<Val>, r: Writing)
    requires AllWellTyped(ts, vs) && ts != [] && t == ts[0] && v == vs[0] && ts' == ts[1..] && vs' == vs[1..]
    requires WellTyped(t, v) && r == WriteTo(w, t, v, room)
    ensures AllWellTyped(ts', vs')
    ensures WriteAll(w, narrow, ts, vs, room) == Followed(narrow, r, WriteAll(w, narrow, ts', vs', room - |r.sent|))
  {
    hide WriteTo, WellTyped, Kept;
  }

  lemma AfterFollowed(narrow: bool, i: nat, rc: int, sent: seq<Byte>, r: Writing, m: Writings)
    ensures After(i, rc, sent, Followed(narrow, r, m))
            == if Kept(narrow, r.rc) > 0 then After(i + 1, rc + Kept(narrow, r.rc), sent + r.sent, m)
               else Writings(i, rc, sent + r.sent)
  {
    assert sent + (r.sent + m.sent) == sent + r.sent + m.sent;
  }

  lemma ComponentAt(ts: seq<Ty>, vs: seq<Val>, i: nat)
    requires |ts| == |vs| && i < |ts| && AllWellTyped(ts[i..], vs[i..])
    ensures WellTyped(ts[i], vs[i]) && AllWellTyped(ts[i + 1..], vs[i + 1..])
  {
    hide WellTyped;
    From(ts, i);
    From(vs, i);
  }

  /** One component more: the loop goes on after a positive count, and stops otherwise. */
  lemma WriteNext(w: Backend, narrow: bool, ts: seq<Ty>, vs: seq<Val>, room: nat, i: nat, rc: int, sent: seq<Byte>,
                  r: Writing, count: int)
    requires AllWellTyped(ts, vs) && HalfWritten(w, narrow, ts, vs, room, i, rc, sent) && i < |ts|
    requires WellTyped(ts[i], vs[i]) && r == WriteTo(w, ts[i], vs[i], room - |sent|) && count == Kept(narrow, r.rc)
    ensures count > 0 ==> HalfWritten(w, narrow, ts, vs, room, i + 1, rc + count, sent + r.sent)
    ensures count <= 0 ==> WriteAll(w, narrow, ts, vs, room) == Writings(i, rc, sent + r.sent)
  {
    hide WriteTo, WriteAll, WellTyped, AllWellTyped;
    ComponentAt(ts, vs, i);
    From(ts, i);
    From(vs, i);
    var room' := room - |sent|;
    FirstThenRest(w, narrow, ts[i..], vs[i..], room', ts[i], vs[i], ts[i + 1..], vs[i + 1..], r);
    AfterFollowed(narrow, i, rc, sent, r, WriteAll(w, narrow, ts[i + 1..], vs[i + 1..], room' - |r.sent|));
  }

  /** A list is its head and its components. */
  lemma ListWroteBy(w: Backend, t: Ty, v: Val, data: seq<Byte>, room: nat, data': seq<Byte>, room': nat,
                    ok: bool, sum: int, rc: int, data'': seq<Byte>, room'': nat)
    requires IsList(t) && WellTyped(t, v) && |HeadBytes(w, t, |v.items|)| <= room
    requires data' == data + HeadBytes(w, t, |v.items|) && room' == room - |HeadBytes(w, t, |v.items|)|
    requires var ts := Kids(t, |v.items|);
             AllWrote(WriteAll(w, Narrows(t, w), ts, v.items, room'), |ts|, ok, sum, data', room', data'', room'')
    requires var head := HeadBytes(w, t, |v.items|);
             rc == if w.File? then (if !ok then 0 else if t.TOptional? && v.items != [] then sum else 1)
                   else if !ok then (if t.TCont? || t.TMap? then |head| - 1 else -1)
                   else |head| + sum
    ensures WroteBy(w, t, v, rc, data, room, data'', room'')
  {
    hide WriteTo, WriteAll, AllWellTyped, HeadBytes;
    ItemsFit(t, v);
    WriteListStep(w, t, v, room);
  }

  /** A head that does not fit is all that is written of a list. */
  lemma HeadRefused(w: Backend, t: Ty, v: Val, rc: int, data: seq<Byte>, room: nat, data': seq<Byte>)
    requires IsList(t) && WellTyped(t, v) && room < |HeadBytes(w, t, |v.items|)|
    requires data' == data + Clip(HeadBytes(w, t, |v.items|), room) && rc == Fail(w)
    ensures WroteBy(w, t, v, rc, data, room, data', 0)
  {
    hide WriteTo, AllWellTyped, HeadBytes;
    HeadTooLong(w, t, v, room);
  }

  /** A variant is its index and its content. */
  lemma VariantWroteBy(w: Backend, t: Ty, v: Val, data: seq<Byte>, room: nat, data': seq<Byte>, room': nat,
                       count: int, rc: int, data'': seq<Byte>, room'': nat)
    requires t.TVariant? && WellTyped(t, v) && (room >= 8 || (w.Descriptor? && room > 0))
    requires data' == data + Clip(ToBytes(Big, v.index, 8), room) && room' == room - Min(8, room)
    requires WroteBy(w, t.alts[v.index], v.content, count, data', room', data'', room'')
    requires rc == if w.File? then count else if count >= 0 then Min(8, room) + count else -1
    ensures WroteBy(w, t, v, rc, data, room, data'', room'')
  {
    hide WriteTo, ToBytes;
    WriteVariantStep(w, t, v, room);
  }

  lemma IndexRefused(w: Backend, t: Ty, v: Val, rc: int, data: seq<Byte>, room: nat, data': seq<Byte>)
    requires t.TVariant? && WellTyped(t, v) && room < 8 && (room == 0 || !w.Descriptor?)
    requires data' == data + Clip(ToBytes(Big, v.index, 8), room) && rc == Fail(w)
    ensures WroteBy(w, t, v, rc, data, room, data', 0)
  {
    hide WriteTo;
    WriteVariantStep(w, t, v, room);
  }

  lemma LeafWroteBy(w: Backend, t: Ty, v: Val, rc: int, data: seq<Byte>, room: nat, data': seq<Byte>, room': nat)
    requires WellTyped(t, v) && !IsList(t) && !t.TVariant? && rc == WriteLeaf(w, t, v, room).rc
    requires var enc := EncodeLeaf(w, t, v); data' == data + Clip(enc, room) && room' == room - |Clip(enc, room)|
    ensures WroteBy(w, t, v, rc, data, room, data', room')
  {
  }

  /** One component is all of a list of one, and none of a list of none. */
  lemma OneWrote(w: Backend, t: Ty, v: Val, vs: seq<Val>, rc: int, data: seq<Byte>, room: nat, data': seq<Byte>,
                 room': nat)
    requires w.File? && WellTyped(t, v) && vs == [v] && AllWellTyped([t], vs)
    requires WroteBy(w, t, v, rc, data, room, data', room')
    ensures AllWrote(WriteAll(w, false, [t], vs, room), 1, rc > 0, rc, data, room, data', room')
  {
    hide WriteTo, WellTyped;
    var r := WriteTo(w, t, v, room);
    FirstThenRest(w, false, [t], vs, room, t, v, [], [], r);
    assert r.sent + [] == r.sent;
  }

  lemma NoneWrote(w: Backend, t: Ty, v: Val, data: seq<Byte>, room: nat)
    requires t.TOptional? && WellTyped(t, v) && v.items == []
    ensures var ts := Kids(t, |v.items|);
            AllWrote(WriteAll(w, false, ts, v.items, room), |ts|, true, 0, data, room, data, room)
  {
    assert data + [] == data;
  }

  /** A string is its length and its characters. */
  lemma CountInFront(w: Backend, t: Ty, n: nat)
    requires (t.TCont? || t.TMap?) && n < Pow256(8)
    ensures HeadBytes(w, t, n) == Wire(w.native, false, n, 8)
  {
  }

  lemma StringCount(w: Backend, v: Val, room: nat)
    requires WellTyped(TString, v) && !w.File?
    ensures EncodeLeaf(w, TString, v) == LengthBytes(w, |v.chars|) + v.chars
    ensures WriteLeaf(w, TString, v, room).rc
            == if |LengthBytes(w, |v.chars|)| + |v.chars| <= room then |LengthBytes(w, |v.chars|)| + |v.chars| else -1
  {
    hide LengthBytes;
  }

  lemma BothClipped(data: seq<Byte>, head: seq<Byte>, chars: seq<Byte>, room: nat)
    ensures |head| <= room ==> data + head + Clip(chars, room - |head|) == data + Clip(head + chars, room)
    ensures |head| > room ==> data + Clip(head, room) == data + Clip(head + chars, room)
  {
    ClipBoth(head, chars, room);
  }

  /** FileIO's results are not signed. */
  lemma {:induction false} NeverSigned(w: Backend, t: Ty, v: Val, room: nat)
    requires WellTyped(t, v) && w.File?
    ensures WriteTo(w, t, v, room).rc >= 0
    decreases v, 0
  {
    hide WriteTo, WriteAll, HeadBytes, Kids;
    if IsList(t) {
      var head := HeadBytes(w, t, |v.items|);
      if |head| <= room {
        NoneSigned(w, Kids(t, |v.items|), v.items, room - |head|);
      }
      ListUnsigned(w, t, v, room);
    } else if t.TVariant? {
      NeverSigned(w, t.alts[v.index], v.content, room - Min(8, room));
      VariantUnsigned(w, t, v, room);
    } else {
      LeafUnsigned(w, t, v, room);
    }
  }

  lemma LeafUnsigned(w: Backend, t: Ty, v: Val, room: nat)
    requires WellTyped(t, v) && !IsList(t) && !t.TVariant? && w.File?
    ensures WriteTo(w, t, v, room).rc >= 0
  {
  }

  lemma VariantUnsigned(w: Backend, t: Ty, v: Val, room: nat)
    requires WellTyped(t, v) && t.TVariant? && w.File?
    requires WriteTo(w, t.alts[v.index], v.content, room - Min(8, room)).rc >= 0
    ensures WriteTo(w, t, v, room).rc >= 0
  {
  }

  lemma ListUnsigned(w: Backend, t: Ty, v: Val, room: nat)
    requires WellTyped(t, v) && IsList(t) && w.File?
    requires var head := HeadBytes(w, t, |v.items|);
             |head| <= room ==> WriteAll(w, Narrows(t, w), Kids(t, |v.items|), v.items, room - |head|).rc >= 0
    ensures WriteTo(w, t, v, room).rc >= 0
  {
    hide WriteAll, HeadBytes, Kids;
  }

  lemma {:induction false} NoneSigned(w: Backend, ts: seq<Ty>, vs: seq<Val>, room: nat)
    requires AllWellTyped(ts, vs) && w.File?
    ensures WriteAll(w, false, ts, vs, room).rc >= 0
    decreases vs, 1
  {
    hide WriteTo, Narrow;
    if ts != [] {
      NeverSigned(w, ts[0], vs[0], room);
      NoneSigned(w, ts[1..], vs[1..], room - WriteTo(w, ts[0], vs[0], room).Used());
    }
  }
}
