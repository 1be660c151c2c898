/** What every write returns and sends, whatever the value and whatever the room: scalars,
    heads, variants and components in turn. */
module CodecEmission {
  import opened Bytes
  import opened EncodedInteger
  import opened CodecTypes
  import opened Codec
  import opened CodecRoundTrip
  import opened CodecWrites
  import opened CodecLayout

  // Scalars and strings

  /** With room enough the encoding is sent and its length returned; by FileIO 1 for nothing. */
  lemma WritesLeaf(w: Backend, t: Ty, v: Val, room: nat)
    requires WellTyped(t, v) && !IsList(t) && !t.TVariant? && |Encode(w, t, v)| <= room
    ensures var r := WriteTo(w, t, v, room);
            r.sent == Encode(w, t, v) && r.rc == if w.File? && t.TMono? then 1 else |Encode(w, t, v)|
  {
  }

  /** With less, as much as fits. FileIO returns 0, DescriptorIO how much fitted of an integer
      and GZIO and BZ2IO how much fitted of one of less than eight bytes; those three return 0
      for a bool and otherwise -1. */
  lemma ShortWriteResult(w: Backend, t: Ty, v: Val, room: nat)
    requires WellTyped(t, v) && !IsList(t) && !t.TVariant? && room < |Encode(w, t, v)|
    ensures var r := WriteTo(w, t, v, room);
            && r.sent == Encode(w, t, v)[..room]
            && match w
               case File(_) => r.rc == 0
               case Descriptor(_) => r.rc == if t.TInt? then room else if t.TBool? then 0 else -1
               case _ => r.rc == if t.TInt? && t.width < 8 then room else if t.TBool? then 0 else -1
  {
  }

  // Heads

  /** Without room for the head of an aggregate, or for the index of a variant, only part of
      it is sent and the write fails, except that DescriptorIO goes on to the content once it
      has sent some of the index. */
  lemma HeadCut(w: Backend, t: Ty, v: Val, room: nat)
    requires IsList(t) && WellTyped(t, v) && room < |HeadBytes(w, t, |v.items|)|
    ensures WriteTo(w, t, v, room) == Writing(if w.File? then 0 else -1, HeadBytes(w, t, |v.items|)[..room])
  {
    HeadTooLong(w, t, v, room);
  }

  lemma IndexCut(w: Backend, t: Ty, v: Val, room: nat)
    requires t.TVariant? && WellTyped(t, v) && room < 8 && (!w.Descriptor? || room == 0)
    ensures |Encode(w, t, v)| >= 8
    ensures WriteTo(w, t, v, room) == Writing(if w.File? then 0 else -1, Encode(w, t, v)[..room])
  {
    hide ToBytes;
  }

  lemma ContentWrites(w: Backend, t: Ty, v: Val, room: nat)
    requires t.TVariant? && WellTyped(t, v) && (room >= 8 || (w.Descriptor? && room > 0))
    ensures |Encode(w, t, v)| >= 8
    ensures var r, fits := WriteTo(w, t, v, room), Min(8, room);
            var c := WriteTo(w, t.alts[v.index], v.content, room - fits);
            && r.sent == Encode(w, t, v)[..fits] + c.sent
            && r.rc == if w.File? then c.rc else if c.rc < 0 then -1 else fits + c.rc
  {
    hide ToBytes, WriteTo;
    WriteVariantStep(w, t, v, room);
    var index, content := ToBytes(Big, v.index, 8), Encode(w, t.alts[v.index], v.content);
    assert (index + content)[..Min(8, room)] == index[..Min(8, room)];
  }

  // Components

  /** A component that was written successfully between two positions. */
  ghost predicate PartWritten(w: Backend, narrow: bool, t: Ty, v: Val, room: nat, sent: seq<Byte>, start: nat, end: nat)
    requires WellTyped(t, v)
  {
    && start <= room
    && var r := WriteTo(w, t, v, room - start);
       Kept(narrow, r.rc) > 0 && start <= end == start + |r.sent| <= |sent| && sent[start..end] == r.sent
  }

  ghost predicate SentInTurn(w: Backend, narrow: bool, ts: seq<Ty>, vs: seq<Val>, room: nat, sent: seq<Byte>,
                             at: seq<nat>)
    requires PairwiseTyped(ts, vs)
  {
    && 0 < |at| <= |ts| + 1 && (forall i :: 0 <= i < |at| ==> at[i] <= room)
    && forall i {:trigger ts[i]} :: 0 <= i < |at| - 1 ==>
         PartWritten(w, narrow, ts[i], vs[i], room, sent, at[i], at[i + 1])
  }

  /** And there the writing has stopped: at the end, or at a component that failed. */
  ghost predicate EndsAt(w: Backend, narrow: bool, ts: seq<Ty>, vs: seq<Val>, room: nat, sent: seq<Byte>, n: nat,
                         at: nat)
    requires PairwiseTyped(ts, vs)
  {
    if n < |ts| then
      && at <= room && at <= |sent|
      && var r := WriteTo(w, ts[n], vs[n], room - at);
         Kept(narrow, r.rc) <= 0 && sent[at..] == r.sent
    else
      n == |ts| && at == |sent|
  }

  /** The sum of the results of the components from `i` to the last position. */
  function ResultsFrom(w: Backend, narrow: bool, ts: seq<Ty>, vs: seq<Val>, room: nat, at: seq<nat>, i: nat): int
    requires PairwiseTyped(ts, vs) && |at| <= |ts| + 1 && forall k :: 0 <= k < |at| ==> at[k] <= room
    decreases |at| - i
  {
    if i + 1 >= |at| then 0
    else
      Kept(narrow, WriteTo(w, ts[i], vs[i], room - at[i]).rc) + ResultsFrom(w, narrow, ts, vs, room, at, i + 1)
  }

  lemma {:induction false} ResultsLater(w: Backend, narrow: bool, ts: seq<Ty>, vs: seq<Val>, room: nat, at: seq<nat>,
          skip: nat, i: nat)
    requires ts != [] && PairwiseTyped(ts, vs) && PairwiseTyped(ts[1..], vs[1..]) && |at| <= |ts| && skip <= room
    requires forall k :: 0 <= k < |at| ==> at[k] <= room - skip
    ensures ResultsFrom(w, narrow, ts, vs, room, [0] + Moved(at, skip), i + 1)
         == ResultsFrom(w, narrow, ts[1..], vs[1..], room - skip, at, i)
    decreases |at| - i
  {
    hide WriteTo, Kept, WellTyped;
    if i + 1 < |at| {
      var all := [0] + Moved(at, skip);
      assert room - all[i + 1] == room - skip - at[i];
      ResultsLater(w, narrow, ts, vs, room, at, skip, i + 1);
    }
  }

  lemma PartLater(w: Backend, narrow: bool, t: Ty, v: Val, room: nat, sent: seq<Byte>, more: seq<Byte>, start: nat,
          end: nat)
    requires WellTyped(t, v) && |sent| <= room && PartWritten(w, narrow, t, v, room - |sent|, more, start, end)
    ensures PartWritten(w, narrow, t, v, room, sent + more, start + |sent|, end + |sent|)
  {
    hide WriteTo, Kept, WellTyped;
    assert (sent + more)[start + |sent|..end + |sent|] == more[start..end];
    assert room - |sent| - start == room - (start + |sent|);
  }

  lemma SentLater(w: Backend, narrow: bool, ts: seq<Ty>, vs: seq<Val>, room: nat, sent: seq<Byte>, more: seq<Byte>,
          at: seq<nat>)
    requires ts != [] && PairwiseTyped(ts, vs) && PairwiseTyped(ts[1..], vs[1..]) && |sent| <= room
    requires PartWritten(w, narrow, ts[0], vs[0], room, sent + more, 0, |sent|)
    requires SentInTurn(w, narrow, ts[1..], vs[1..], room - |sent|, more, at) && at[0] == 0
    ensures SentInTurn(w, narrow, ts, vs, room, sent + more, [0] + Moved(at, |sent|))
  {
    hide PartWritten, WellTyped;
    var all := [0] + Moved(at, |sent|);
    forall i | 0 <= i < |all| - 1
      ensures PartWritten(w, narrow, ts[i], vs[i], room, sent + more, all[i], all[i + 1])
    {
      if i > 0 {
        assert ts[1..][i - 1] == ts[i] && vs[1..][i - 1] == vs[i];
        PartLater(w, narrow, ts[i], vs[i], room, sent, more, at[i - 1], at[i]);
      }
    }
  }

  lemma EndsLater(w: Backend, narrow: bool, ts: seq<Ty>, vs: seq<Val>, room: nat, sent: seq<Byte>, more: seq<Byte>,
          n: nat, at: nat)
    requires ts != [] && PairwiseTyped(ts, vs) && PairwiseTyped(ts[1..], vs[1..]) && |sent| <= room
    requires EndsAt(w, narrow, ts[1..], vs[1..], room - |sent|, more, n, at)
    ensures EndsAt(w, narrow, ts, vs, room, sent + more, n + 1, at + |sent|)
  {
    hide WriteTo, Kept, WellTyped;
    if n + 1 < |ts| {
      assert (sent + more)[at + |sent|..] == more[at..];
      assert room - |sent| - at == room - (at + |sent|);
    }
  }

  lemma FirstWritten(w: Backend, narrow: bool, t: Ty, v: Val, room: nat, more: seq<Byte>)
    requires WellTyped(t, v) && Kept(narrow, WriteTo(w, t, v, room).rc) > 0
    ensures var r := WriteTo(w, t, v, room); PartWritten(w, narrow, t, v, room, r.sent + more, 0, |r.sent|)
  {
    hide WriteTo, Kept, WellTyped;
    var r := WriteTo(w, t, v, room);
    assert (r.sent + more)[0..|r.sent|] == r.sent;
  }

  lemma FirstEnds(w: Backend, narrow: bool, ts: seq<Ty>, vs: seq<Val>, room: nat)
    requires PairwiseTyped(ts, vs)
    requires ts != [] ==> Kept(narrow, WriteTo(w, ts[0], vs[0], room).rc) <= 0
    ensures var sent := if ts == [] then [] else WriteTo(w, ts[0], vs[0], room).sent;
            SentInTurn(w, narrow, ts, vs, room, sent, [0]) && EndsAt(w, narrow, ts, vs, room, sent, 0, 0)
  {
    hide WriteTo, Kept, WellTyped;
  }

  lemma RestTypedPairwise(ts: seq<Ty>, vs: seq<Val>)
    requires PairwiseTyped(ts, vs) && ts != []
    ensures PairwiseTyped(ts[1..], vs[1..])
  {
    hide WellTyped;
  }

  /** Components are written in turn, each into the room that those before it have left, up to
      the first whose result is not positive. */
  lemma {:induction false} ComponentsWrittenInTurn(w: Backend, narrow: bool, ts: seq<Ty>, vs: seq<Val>, room: nat)
    returns (at: seq<nat>)
    requires AllWellTyped(ts, vs) && PairwiseTyped(ts, vs)
    ensures var m := WriteAll(w, narrow, ts, vs, room);
            && SentInTurn(w, narrow, ts, vs, room, m.sent, at) && at[0] == 0 && |at| == m.n + 1
            && EndsAt(w, narrow, ts, vs, room, m.sent, m.n, at[m.n])
            && m.rc == ResultsFrom(w, narrow, ts, vs, room, at, 0)
    decreases |ts|
  {
    hide WriteTo, WriteAll, Kept, SentInTurn, EndsAt, WellTyped, PartWritten;
    at := [0];
    if ts == [] {
      NothingToWrite(w, narrow, ts, vs, room);
      FirstEnds(w, narrow, ts, vs, room);
    } else {
      var r := WriteTo(w, ts[0], vs[0], room);
      if Kept(narrow, r.rc) > 0 {
        var rest := room - |r.sent|;
        RestTypedPairwise(ts, vs);
        WriteAllStep(w, narrow, ts, vs, room);
        var m := WriteAll(w, narrow, ts[1..], vs[1..], rest);
        at := ComponentsWrittenInTurn(w, narrow, ts[1..], vs[1..], rest);
        AtFits(w, narrow, ts[1..], vs[1..], rest, m.sent, at);
        FirstWritten(w, narrow, ts[0], vs[0], room, m.sent);
        SentLater(w, narrow, ts, vs, room, r.sent, m.sent, at);
        EndsLater(w, narrow, ts, vs, room, r.sent, m.sent, m.n, at[m.n]);
        AtFits(w, narrow, ts, vs, room, r.sent + m.sent, [0] + Moved(at, |r.sent|));
        ResultsLater(w, narrow, ts, vs, room, at, |r.sent|, 0);
        FirstResult(w, narrow, ts, vs, room, at, |r.sent|);
        at := [0] + Moved(at, |r.sent|);
      } else {
        WriteAllStops(w, narrow, ts, vs, room);
        FirstEnds(w, narrow, ts, vs, room);
      }
    }
  }

  lemma FirstResult(w: Backend, narrow: bool, ts: seq<Ty>, vs: seq<Val>, room: nat, at: seq<nat>, skip: nat)
    requires PairwiseTyped(ts, vs) && 0 < |at| <= |ts| && forall k :: 0 <= k < |at| ==> at[k] + skip <= room
    ensures var all := [0] + Moved(at, skip);
            ResultsFrom(w, narrow, ts, vs, room, all, 0)
            == Kept(narrow, WriteTo(w, ts[0], vs[0], room).rc) + ResultsFrom(w, narrow, ts, vs, room, all, 1)
  {
    hide WriteTo, Kept, WellTyped;
    assert room - 0 == room;
  }

  lemma AtFits(w: Backend, narrow: bool, ts: seq<Ty>, vs: seq<Val>, room: nat, sent: seq<Byte>, at: seq<nat>)
    requires PairwiseTyped(ts, vs) && SentInTurn(w, narrow, ts, vs, room, sent, at)
    ensures 0 < |at| <= |ts| + 1 && forall i :: 0 <= i < |at| ==> at[i] <= room
  {
  }

  /** All that was sent after a head, component by component. */
  ghost predicate InParts(w: Backend, narrow: bool, ts: seq<Ty>, vs: seq<Val>, room: nat, sent: seq<Byte>, at: seq<nat>)
    requires PairwiseTyped(ts, vs)
  {
    && SentInTurn(w, narrow, ts, vs, room, sent, at) && at[0] == 0
    && EndsAt(w, narrow, ts, vs, room, sent, |at| - 1, at[|at| - 1])
  }

  /** What a write of `n` components returns when `done` of them were written and their
      results add up to `sum`. */
  predicate IsWriteResult(w: Backend, t: Ty, head: nat, n: nat, done: nat, sum: int, rc: int) {
    rc == if done < n then (if w.File? then 0 else if t.TCont? || t.TMap? then head - 1 else -1)
          else if !w.File? then head + sum
          else if t.TOptional? && n == 1 then sum
          else 1
  }

  /** Writing an aggregate, once there is room for its head: the head and the components in
      turn. If one fails FileIO returns 0 and the others -1, except that a container adds the
      size of its head to that. Otherwise FileIO returns 1, or what an optional's value
      returned, and the others the sum of the head and of what the components returned. */
  lemma AggregateWrites(w: Backend, t: Ty, v: Val, room: nat, narrow: bool)
    returns (ts: seq<Ty>, head: seq<Byte>, at: seq<nat>)
    requires IsList(t) && WellTyped(t, v) && |HeadBytes(w, t, |v.items|)| <= room && narrow == (t.TTuple? && !w.File?)
    ensures IsHead(w, t, |v.items|, head) && |head| <= room && CanHave(t, |v.items|) && PairwiseTyped(ts, v.items)
    ensures forall i :: 0 <= i < |ts| ==> ts[i] == PartType(t, i)
    ensures head <= WriteTo(w, t, v, room).sent
    ensures InParts(w, narrow, ts, v.items, room - |head|, WriteTo(w, t, v, room).sent[|head|..], at)
    ensures IsWriteResult(w, t, |head|, |ts|, |at| - 1, ResultsFrom(w, narrow, ts, v.items, room - |head|, at, 0),
                          WriteTo(w, t, v, room).rc)
  {
    hide WriteTo, WriteAll, SentInTurn, EndsAt, ResultsFrom, Kids, HeadBytes, IsHead, FinishWrite, PairwiseTyped,
      AllWellTyped, IsWriteResult;
    KidsTyped(t, v);
    var vs := v.items;
    ts, head := Kids(t, |vs|), HeadBytes(w, t, |vs|);
    HeadIs(w, t, |vs|);
    ListTypedExactly(t, v);
    KidCount(t, |vs|);
    var rest := room - |head|;
    var m := WriteAll(w, narrow, ts, vs, rest);
    at := ComponentsWrittenInTurn(w, narrow, ts, vs, rest);
    AtFits(w, narrow, ts, vs, rest, m.sent, at);
    WriteListStep(w, t, v, room);
    WriteOutcome(w, t, head, |ts|, m);
  }

  lemma WriteOutcome(w: Backend, t: Ty, head: seq<Byte>, n: nat, m: Writings)
    requires m.n <= n
    ensures var r := FinishWrite(w, t, head, n, m);
            head <= r.sent && r.sent[|head|..] == m.sent && IsWriteResult(w, t, |head|, n, m.n, m.rc, r.rc)
  {
  }
}
