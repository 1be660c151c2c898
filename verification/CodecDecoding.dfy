/** What a reader makes of any bytes, whoever wrote them: numbers by place value, and what
    it refuses. */
module CodecDecoding {
  import opened Bytes
  import opened EncodedInteger
  import opened CodecTypes
  import opened Codec
  import opened CodecRoundTrip
  import opened CodecTheorems
  import opened CodecLayout

  // Scalars

  /** Enough bytes for a scalar: an integer is what they spell, big endian, a bool is whether
      its byte is not zero, and a float is the bytes. */
  lemma ReadsScalar(be: Backend, t: Ty, target: Obj, bytes: seq<Byte>)
    ensures t.TInt? && t.width <= |bytes| ==>
              var r := ReadFrom(be, t, target, bytes);
              r.rc == r.used == t.width && r.obj.OInt? && Spells(Big, bytes[..t.width], r.obj.bits)
    ensures t.TBool? && bytes != [] ==> ReadFrom(be, t, target, bytes) == Reading(1, OBool(bytes[0] != 0), 1)
    ensures t.TFloat? && t.width <= |bytes| ==>
              ReadFrom(be, t, target, bytes) == Reading(t.width, OFloat(bytes[..t.width]), t.width)
    ensures t.TMono? ==> ReadFrom(be, t, target, bytes) == Reading(if be.File? then 1 else 0, OMono, 0)
  {
    hide FromBytes, Spells;
    if t.TInt? && t.width <= |bytes| {
      SpellsExactly(Big, bytes[..t.width], FromBytes(Big, bytes[..t.width]));
    }
  }

  /** Too few: all are consumed. FileIO returns 0. Of the others DescriptorIO returns how many
      there were of a float, and 0 at the end for a byte, GZIO how many there were of a float
      or of an integer of less than eight bytes, and BZ2IO of such integers only; otherwise
      they return -1. */
  lemma ShortScalarResult(be: Backend, t: Ty, width: nat, target: Obj, bytes: seq<Byte>)
    requires |bytes| < width && t in {TInt(1), TInt(2), TInt(4), TInt(8), TBool, TFloat(4), TFloat(8)}
    requires width == if t.TBool? then 1 else t.width
    ensures var r := ReadFrom(be, t, target, bytes);
            && r.used == |bytes|
            && match be
               case File(_) => r.rc == 0
               case Descriptor(_) => r.rc == if t.TFloat? || width == 1 then |bytes| else -1
               case Gz(_) => r.rc == if t.TBool? || (t.TInt? && width == 8) then -1 else |bytes|
               case Bz2(_) => r.rc == if t.TInt? && width < 8 then |bytes| else -1
  {
    hide FromBytes;
  }

  /** What a short read leaves of an integer in memory: DescriptorIO overwrites its first
      bytes, and nobody else touches it. */
  lemma ShortScalarTarget(be: Backend, t: Ty, target: Obj, bytes: seq<Byte>, memory: seq<Byte>)
    requires (t.TInt? || t.TFloat?) && |bytes| < t.width == |memory|
    requires t.TInt? ==> target.OInt? && Spells(be.native, memory, target.bits)
    ensures var r := ReadFrom(be, t, target, bytes);
            if be.Descriptor? && t.TInt? then
              r.obj.OInt? && Spells(be.native, bytes + memory[|bytes|..], r.obj.bits)
            else
              r.obj == target
  {
    hide FromBytes, ToBytes, Spells;
    if be.Descriptor? && t.TInt? {
      SpellsExactly(be.native, memory, target.bits);
      WordBack(be.native, memory);
      var now := bytes + memory[|bytes|..];
      SpellsExactly(be.native, now, FromBytes(be.native, now));
    }
  }

  lemma ShortBoolTarget(be: Backend, target: Obj)
    ensures ReadFrom(be, TBool, target, []).obj == target
  {
  }

  // Numbers in front

  lemma WordIs(bytes: seq<Byte>, n: nat)
    ensures |bytes| >= 8 && Spells(Big, bytes[..8], n) ==> ReadWord(bytes) == Head(n, 8)
    ensures |bytes| >= 8 && !Spells(Big, bytes[..8], n) ==> ReadWord(bytes).Head? && ReadWord(bytes).n != n
    ensures |bytes| >= 8 ==> ReadWord(bytes).used == 8
    ensures |bytes| < 8 ==> ReadWord(bytes) == NoHead(|bytes|)
  {
    if |bytes| >= 8 {
      SpellsExactly(Big, bytes[..8], n);
    }
  }

  /** The size of a count, which its first byte tells; the bytes may be too few for it. */
  function CountSize(bytes: seq<Byte>): nat {
    if bytes == [] then 2 else 2 + bytes[0] % 8
  }

  /** The bytes start with a count of `n`, minimal or not, of either byte order. */
  ghost predicate StartsWithCount(bytes: seq<Byte>, n: nat) {
    |bytes| >= CountSize(bytes) && Spells(if bytes[0] >= 128 then Big else Little, bytes[1..CountSize(bytes)], n)
  }

  lemma CountIsThere(bytes: seq<Byte>, n: nat)
    ensures StartsWithCount(bytes, n) <==> ReadCount(bytes) == Head(n, CountSize(bytes))
    ensures |bytes| < CountSize(bytes) ==> ReadCount(bytes) == NoHead(|bytes|)
    ensures |bytes| >= CountSize(bytes) ==> ReadCount(bytes).Head? && ReadCount(bytes).used == CountSize(bytes)
  {
    hide Spells, Unwire;
    UnwireDigits(bytes, 8);
    if |bytes| >= CountSize(bytes) {
      var order, digits := if bytes[0] >= 128 then Big else Little, bytes[1..CountSize(bytes)];
      SpellsExactly(order, digits, n);
      SpellsExactly(order, digits, ReadCount(bytes).n);
    }
  }

  // Strings

  /** The bytes start with the length of a string, which takes `size` of them. */
  ghost predicate StartsWithLength(be: Backend, bytes: seq<Byte>, n: nat, size: nat) {
    if be.File? then size == 8 && |bytes| >= 8 && Spells(Big, bytes[..8], n)
    else size == CountSize(bytes) && StartsWithCount(bytes, n)
  }

  /** A string is as many characters as its length says. If there are fewer the read fails;
      GZIO alone then leaves what there was, filled up with zeros, and the others nothing. */
  lemma ReadsString(be: Backend, target: Obj, bytes: seq<Byte>, n: nat, size: nat)
    requires StartsWithLength(be, bytes, n, size)
    ensures var r := ReadFrom(be, TString, target, bytes);
            if size + n <= |bytes| then
              r == Reading(size + n, OString(bytes[size..size + n]), size + n)
            else
              && r.rc == (if be.File? then 0 else -1) && r.used == |bytes|
              && r.obj == OString(if be.Gz? then bytes[size..] + Zeros(n - (|bytes| - size)) else [])
  {
    hide Spells, StartsWithCount, CountSize, Zeros, ReadCount, ReadWord;
    if be.File? {
      WordIs(bytes, n);
    } else {
      CountIsThere(bytes, n);
    }
  }

  /** Without a length nothing is read; BZ2IO alone then leaves the string as it was. */
  lemma NoLength(be: Backend, target: Obj, bytes: seq<Byte>)
    requires |bytes| < if be.File? then 8 else CountSize(bytes)
    ensures ReadFrom(be, TString, target, bytes)
            == Reading(if be.File? then 0 else -1, if be.Bz2? then target else OString([]), |bytes|)
  {
    hide ReadCount, ReadWord;
    if be.File? {
      WordIs(bytes, 0);
    } else {
      CountIsThere(bytes, 0);
    }
  }

  // Refusals

  /** A container without entries. */
  ghost predicate IsEmptied(t: Ty, o: Obj) {
    match t
    case TCont(Set, _) => o == OSet({})
    case TCont(Multiset, _) => o == OBag(multiset{})
    case TCont(Sequence, _) => o == OList([])
    case TMap(unique, _, _) => o == if unique then OMap(map[]) else OBag(multiset{})
    case _ => false
  }

  /** If the bytes end before the components of an aggregate begin, the read fails and takes
      them all; containers have been emptied by then, and nothing else is touched. */
  lemma HeadMissing(be: Backend, t: Ty, target: Obj, bytes: seq<Byte>)
    requires || (t.TBounded? && |bytes| < 8)
             || ((t.TCont? || t.TMap?) && |bytes| < CountSize(bytes))
             || (t.TOptional? && bytes == [])
    ensures var r := ReadFrom(be, t, target, bytes);
            && r.rc == (if be.File? then 0 else -1) && r.used == |bytes|
            && if t.TCont? || t.TMap? then IsEmptied(t, r.obj) else r.obj == target
  {
    hide ReadCount, ReadWord, ReadAll, FinishRead, Kids, Gather, KidTargets, ReadLeaf, Default, CountSize;
    WordIs(bytes, 0);
    CountIsThere(bytes, 0);
  }

  /** A bounded array is refused if its extent is not the reader's own. */
  lemma WrongExtent(be: Backend, t: Ty, target: Obj, bytes: seq<Byte>)
    requires t.TBounded? && |bytes| >= 8 && !Spells(Big, bytes[..8], t.n)
    ensures ReadFrom(be, t, target, bytes) == Reading(if be.File? then 0 else -1, target, 8)
  {
    hide ReadWord, Spells;
    WordIs(bytes, t.n);
  }

  /** An index that names no alternative: FileIO and DescriptorIO refuse it, GZIO and BZ2IO
      return the eight bytes that it takes. */
  lemma IndexBeyond(be: Backend, t: Ty, target: Obj, bytes: seq<Byte>, n: nat)
    requires t.TVariant? && |bytes| >= 8 && Spells(Big, bytes[..8], n) && n >= |t.alts|
    ensures ReadFrom(be, t, target, bytes)
            == Reading(match be case File(_) => 0 case Descriptor(_) => -1 case _ => 8, target, 8)
  {
    hide ReadWord, Spells;
    WordIs(bytes, n);
  }

  lemma IndexMissing(be: Backend, t: Ty, target: Obj, bytes: seq<Byte>)
    requires t.TVariant? && |bytes| < 8
    ensures ReadFrom(be, t, target, bytes) == Reading(if be.File? then 0 else -1, target, |bytes|)
  {
  }

  /** An index that does: the content is read into a new object of that alternative, which
      the variant then holds whether or not it could be read. FileIO returns what reading it
      returned. DescriptorIO adds eight, but keeps a failure; GZIO and BZ2IO add eight. */
  lemma ContentDecides(be: Backend, t: Ty, target: Obj, bytes: seq<Byte>, n: nat)
    requires t.TVariant? && |bytes| >= 8 && Spells(Big, bytes[..8], n) && n < |t.alts|
    ensures var r, c := ReadFrom(be, t, target, bytes), ReadFrom(be, t.alts[n], Default(t.alts[n]), bytes[8..]);
            && r.obj == OAlt(n, c.obj) && r.used == 8 + c.used
            && match be
               case File(_) => r.rc == c.rc
               case Descriptor(_) => r.rc == if c.rc < 0 then -1 else c.rc + 8
               case _ => r.rc == c.rc + 8
  {
    hide ReadFrom, ReadWord, Spells, Default;
    WordIs(bytes, n);
    ReadVariantStep(be, t, target, bytes);
  }

  // New objects

  /** What a new object is: zero, false, empty or its first alternative, member by member. */
  lemma NewObjects(t: Ty)
    ensures t.TInt? ==> Default(t) == OInt(0)
    ensures t.TBool? ==> Default(t) == OBool(false)
    ensures t.TFloat? ==>
              Default(t).OFloat? && |Default(t).xdr| == t.width && forall b :: b in Default(t).xdr ==> b == 0
    ensures t.TString? ==> Default(t) == OString([])
    ensures t.TMono? ==> Default(t) == OMono
    ensures t.TVariant? && t.alts != [] ==> Default(t) == OAlt(0, Default(t.alts[0]))
    ensures t.TCont? || t.TMap? ==> IsEmptied(t, Default(t))
    ensures t.TOptional? ==> Default(t) == OList([])
    ensures t.TPair? || t.TTuple? || t.TArray? || t.TBounded? ==>
              Default(t).OList? && CanHave(t, |Default(t).items|)
              && forall i :: 0 <= i < |Default(t).items| ==> Default(t).items[i] == Default(PartType(t, i))
  {
    if t.TPair? || t.TTuple? || t.TArray? || t.TBounded? {
      NewAggregates(t);
    }
  }

  lemma {:induction false} DefaultAt(ts: seq<Ty>, i: nat)
    requires i < |ts|
    ensures Defaults(ts)[i] == Default(ts[i])
  {
    hide Default;
    if i > 0 {
      DefaultAt(ts[1..], i - 1);
    }
  }

  /** How many members an aggregate of fixed size has. */
  function Members(t: Ty): nat
    requires t.TPair? || t.TTuple? || t.TArray? || t.TBounded?
  {
    match t
    case TPair(_, _) => 2
    case TTuple(ts) => |ts|
    case TArray(_, n) => n
    case TBounded(_, n) => n
  }

  lemma NewAggregates(t: Ty)
    requires t.TPair? || t.TTuple? || t.TArray? || t.TBounded?
    ensures Default(t).OList? && |Default(t).items| == Members(t)
    ensures forall i :: 0 <= i < Members(t) ==> Default(t).items[i] == Default(PartType(t, i))
  {
    hide Default, Gather, Kids;
    var n := Members(t);
    var ts := Kids(t, 0);
    DefaultOfList(t);
    GatherPlain(t, Defaults(ts));
    MembersAreKids(t);
    forall i | 0 <= i < n ensures Defaults(ts)[i] == Default(PartType(t, i)) {
      DefaultAt(ts, i);
      KidAt(t, n, i);
    }
  }

  lemma MembersAreKids(t: Ty)
    requires t.TPair? || t.TTuple? || t.TArray? || t.TBounded?
    ensures Kids(t, 0) == Kids(t, Members(t)) && |Kids(t, 0)| == Members(t) && CanHave(t, Members(t))
  {
  }

  // Aggregates

  /** A component that was read successfully from the bytes between two positions. */
  ghost predicate PartRead(be: Backend, narrow: bool, t: Ty, target: Obj, bytes: seq<Byte>, obj: Obj, start: nat,
                           end: nat)
  {
    && start <= |bytes|
    && var r := ReadFrom(be, t, target, bytes[start..]); Kept(narrow, r.rc) > 0 && obj == r.obj && end == start + r.used
  }

  /** The components have been read one behind the other, component `i` from position `at[i]`
      on, as far as the last of these positions. */
  ghost predicate InTurn(be: Backend, narrow: bool, ts: seq<Ty>, targets: seq<Obj>, bytes: seq<Byte>, objs: seq<Obj>,
                         at: seq<nat>)
    requires |targets| == |ts| == |objs|
  {
    && 0 < |at| <= |ts| + 1 && (forall i :: 0 <= i < |at| ==> at[i] <= |bytes|)
    && forall i {:trigger ts[i]} :: 0 <= i < |at| - 1 ==>
         PartRead(be, narrow, ts[i], targets[i], bytes, objs[i], at[i], at[i + 1])
  }

  /** And there the read has stopped: at the end, or at a component that failed. */
  ghost predicate StopsAt(be: Backend, narrow: bool, ts: seq<Ty>, targets: seq<Obj>, bytes: seq<Byte>, objs: seq<Obj>,
                          n: nat, at: nat, used: nat)
    requires |targets| == |ts| == |objs|
  {
    if n < |ts| then
      && at <= |bytes|
      && var r := ReadFrom(be, ts[n], targets[n], bytes[at..]);
         Kept(narrow, r.rc) <= 0 && objs[n] == r.obj && used == at + r.used
         && forall i :: n < i < |ts| ==> objs[i] == targets[i]
    else
      n == |ts| && used == at
  }

  /** The sum of the counts of the components from `i` to the last position. */
  function CountsFrom(be: Backend, narrow: bool, ts: seq<Ty>, targets: seq<Obj>, bytes: seq<Byte>, at: seq<nat>,
                      i: nat): int
    requires |targets| == |ts| && |at| <= |ts| + 1 && forall k :: 0 <= k < |at| ==> at[k] <= |bytes|
    decreases |at| - i
  {
    if i + 1 >= |at| then 0
    else
      Kept(narrow, ReadFrom(be, ts[i], targets[i], bytes[at[i]..]).rc)
      + CountsFrom(be, narrow, ts, targets, bytes, at, i + 1)
  }

  lemma {:induction false} CountsMoved(be: Backend, narrow: bool, ts: seq<Ty>, targets: seq<Obj>, bytes: seq<Byte>,
          at: seq<nat>, skip: nat, i: nat)
    requires |targets| == |ts| && ts != [] && |at| <= |ts| && skip <= |bytes|
    requires forall k :: 0 <= k < |at| ==> at[k] <= |bytes| - skip
    ensures CountsFrom(be, narrow, ts, targets, bytes, [0] + Moved(at, skip), i + 1)
         == CountsFrom(be, narrow, ts[1..], targets[1..], bytes[skip..], at, i)
    decreases |at| - i
  {
    hide ReadFrom, Kept;
    if i + 1 < |at| {
      var all := [0] + Moved(at, skip);
      assert bytes[skip..][at[i]..] == bytes[all[i + 1]..];
      CountsMoved(be, narrow, ts, targets, bytes, at, skip, i + 1);
    }
  }

  lemma PartMoved(be: Backend, narrow: bool, t: Ty, target: Obj, bytes: seq<Byte>, obj: Obj, start: nat, end: nat,
          skip: nat)
    requires skip <= |bytes| && PartRead(be, narrow, t, target, bytes[skip..], obj, start, end)
    ensures PartRead(be, narrow, t, target, bytes, obj, start + skip, end + skip)
  {
    hide ReadFrom, Kept;
    assert bytes[skip..][start..] == bytes[start + skip..];
  }

  lemma MovedInTurn(be: Backend, narrow: bool, ts: seq<Ty>, targets: seq<Obj>, bytes: seq<Byte>, objs: seq<Obj>,
          at: seq<nat>, skip: nat)
    requires |targets| == |ts| == |objs| && ts != [] && skip <= |bytes|
    requires PartRead(be, narrow, ts[0], targets[0], bytes, objs[0], 0, skip)
    requires InTurn(be, narrow, ts[1..], targets[1..], bytes[skip..], objs[1..], at) && at[0] == 0
    ensures InTurn(be, narrow, ts, targets, bytes, objs, [0] + Moved(at, skip))
  {
    hide PartRead;
    var all := [0] + Moved(at, skip);
    forall i | 0 <= i < |all| - 1
      ensures PartRead(be, narrow, ts[i], targets[i], bytes, objs[i], all[i], all[i + 1])
    {
      if i > 0 {
        assert ts[1..][i - 1] == ts[i] && targets[1..][i - 1] == targets[i] && objs[1..][i - 1] == objs[i];
        PartMoved(be, narrow, ts[i], targets[i], bytes, objs[i], at[i - 1], at[i], skip);
      }
    }
  }

  lemma MovedStops(be: Backend, narrow: bool, ts: seq<Ty>, targets: seq<Obj>, bytes: seq<Byte>, objs: seq<Obj>,
          n: nat, at: nat, used: nat, skip: nat)
    requires |targets| == |ts| == |objs| && ts != [] && skip <= |bytes|
    requires StopsAt(be, narrow, ts[1..], targets[1..], bytes[skip..], objs[1..], n, at, used)
    ensures StopsAt(be, narrow, ts, targets, bytes, objs, n + 1, at + skip, used + skip)
  {
    hide ReadFrom, Kept;
    if n + 1 < |ts| {
      assert bytes[skip..][at..] == bytes[at + skip..];
      forall i | n + 1 < i < |ts| ensures objs[i] == targets[i] {
        assert objs[1..][i - 1] == objs[i] && targets[1..][i - 1] == targets[i];
      }
    }
  }

  /** Components are read in turn, each where the one before it ended, up to the first whose
      count is not positive; those behind it are left alone. */
  lemma {:induction false} ComponentsReadInTurn(be: Backend, narrow: bool, ts: seq<Ty>, targets: seq<Obj>,
          bytes: seq<Byte>)
    returns (at: seq<nat>)
    requires |targets| == |ts|
    ensures var m := ReadAll(be, narrow, ts, targets, bytes);
            && InTurn(be, narrow, ts, targets, bytes, m.objs, at) && at[0] == 0 && |at| == m.n + 1
            && StopsAt(be, narrow, ts, targets, bytes, m.objs, m.n, at[m.n], m.used)
            && m.rc == CountsFrom(be, narrow, ts, targets, bytes, at, 0)
    decreases |ts|
  {
    hide ReadFrom, ReadAll, Kept, InTurn, StopsAt;
    at := [0];
    if ts == [] {
      NoneToRead(be, narrow, ts, targets, bytes);
      NoneInTurn(be, narrow, bytes);
    } else {
      var r := ReadFrom(be, ts[0], targets[0], bytes);
      if Kept(narrow, r.rc) > 0 {
        at := ComponentsReadInTurn(be, narrow, ts[1..], targets[1..], bytes[r.used..]);
        var k := ReadAll(be, narrow, ts[1..], targets[1..], bytes[r.used..]);
        ReadAllStep(be, narrow, ts, targets, bytes);
        FirstRead(be, narrow, ts[0], targets[0], bytes);
        assert ([r.obj] + k.objs)[1..] == k.objs;
        OneMoreInTurn(be, narrow, ts, targets, bytes, at, [r.obj] + k.objs, r.used, k.n, k.used);
        at := [0] + Moved(at, r.used);
      } else {
        ReadAllStops(be, narrow, ts, targets, bytes);
        FirstStops(be, narrow, ts, targets, bytes);
      }
    }
  }

  lemma NoneInTurn(be: Backend, narrow: bool, bytes: seq<Byte>)
    ensures InTurn(be, narrow, [], [], bytes, [], [0]) && StopsAt(be, narrow, [], [], bytes, [], 0, 0, 0)
  {
  }

  lemma FirstStops(be: Backend, narrow: bool, ts: seq<Ty>, targets: seq<Obj>, bytes: seq<Byte>)
    requires |targets| == |ts| && ts != [] && Kept(narrow, ReadFrom(be, ts[0], targets[0], bytes).rc) <= 0
    ensures var r := ReadFrom(be, ts[0], targets[0], bytes);
            var objs := [r.obj] + targets[1..];
            && InTurn(be, narrow, ts, targets, bytes, objs, [0])
            && StopsAt(be, narrow, ts, targets, bytes, objs, 0, 0, r.used)
  {
    hide ReadFrom, Kept;
    assert bytes[0..] == bytes;
  }

  lemma OneMoreInTurn(be: Backend, narrow: bool, ts: seq<Ty>, targets: seq<Obj>, bytes: seq<Byte>, at: seq<nat>,
          objs: seq<Obj>, skip: nat, n: nat, used: nat)
    requires |targets| == |ts| == |objs| && ts != [] && skip <= |bytes|
    requires PartRead(be, narrow, ts[0], targets[0], bytes, objs[0], 0, skip)
    requires InTurn(be, narrow, ts[1..], targets[1..], bytes[skip..], objs[1..], at) && at[0] == 0 && |at| == n + 1
    requires StopsAt(be, narrow, ts[1..], targets[1..], bytes[skip..], objs[1..], n, at[n], used)
    ensures var all := [0] + Moved(at, skip);
            && InTurn(be, narrow, ts, targets, bytes, objs, all)
            && StopsAt(be, narrow, ts, targets, bytes, objs, n + 1, all[n + 1], used + skip)
            && CountsFrom(be, narrow, ts, targets, bytes, all, 0)
            == Kept(narrow, ReadFrom(be, ts[0], targets[0], bytes).rc)
               + CountsFrom(be, narrow, ts[1..], targets[1..], bytes[skip..], at, 0)
  {
    hide ReadFrom, Kept, StopsAt, PartRead;
    assert bytes[0..] == bytes;
    MovedInTurn(be, narrow, ts, targets, bytes, objs, at, skip);
    MovedStops(be, narrow, ts, targets, bytes, objs, n, at[n], used, skip);
    CountsMoved(be, narrow, ts, targets, bytes, at, skip, 0);
  }

  lemma FirstRead(be: Backend, narrow: bool, t: Ty, target: Obj, bytes: seq<Byte>)
    requires Kept(narrow, ReadFrom(be, t, target, bytes).rc) > 0
    ensures var r := ReadFrom(be, t, target, bytes); PartRead(be, narrow, t, target, bytes, r.obj, 0, r.used)
  {
    hide ReadFrom, Kept;
    assert bytes[0..] == bytes;
  }

  /** The bytes start with the head of an aggregate with `n` components, of this size. */
  ghost predicate StartsWithHead(t: Ty, bytes: seq<Byte>, n: nat, size: nat)
    requires IsList(t)
  {
    match t
    case TBounded(_, k) => n == k && size == 8 <= |bytes| && Spells(Big, bytes[..8], n)
    case TCont(_, _) => size == CountSize(bytes) && StartsWithCount(bytes, n)
    case TMap(_, _, _) => size == CountSize(bytes) && StartsWithCount(bytes, n)
    case TOptional(_) => size == 1 && bytes != [] && n == if bytes[0] != 0 then 1 else 0
    case _ => n == Members(t) && size == 0
  }

  /** What component `i` of `n` is read into: that of the target, where it has as many, and
      a new object in containers and otherwise. */
  function PartTarget(t: Ty, target: Obj, n: nat, i: nat): Obj
    requires IsList(t) && CanHave(t, n) && i < n
  {
    if !t.TCont? && !t.TMap? && target.OList? && |target.items| == n then target.items[i] else Default(PartType(t, i))
  }

  lemma HeadFound(t: Ty, bytes: seq<Byte>, n: nat, size: nat)
    requires IsList(t) && StartsWithHead(t, bytes, n, size)
    ensures ReadHead(t, bytes).Head? && ReadHead(t, bytes).used == size && CanHave(t, n)
    ensures Kids(t, ReadHead(t, bytes).n) == Kids(t, n) && (t.TOptional? ==> ReadHead(t, bytes).n == n)
  {
    hide Spells, ReadCount, ReadWord, StartsWithCount, CountSize;
    WordIs(bytes, n);
    CountIsThere(bytes, n);
  }

  lemma TargetAt(t: Ty, target: Obj, n: nat, i: nat)
    requires IsList(t) && CanHave(t, n) && i < n
    ensures |Kids(t, n)| == n && KidTargets(t, target, Kids(t, n))[i] == PartTarget(t, target, n, i)
  {
    hide Kids, Default, Defaults;
    KidAt(t, n, i);
    DefaultAt(Kids(t, n), i);
  }

  /** What the whole read is, given how far its components got: `done` of `n` were read. */
  ghost predicate IsOutcome(be: Backend, t: Ty, target: Obj, size: nat, n: nat, done: nat, objs: seq<Obj>, counts: int,
                            used: nat, r: Reading)
    requires IsList(t) && done <= n == |objs|
  {
    && r.used == size + used
    && r.rc == (if done < n then (if be.File? then 0 else -1)
                else if !be.File? then size + counts
                else if t.TOptional? && n == 1 then counts
                else 1)
    && r.obj == (if t.TOptional? && n == 0 then (if be.File? then OList([]) else target)
                 else if t.TCont? || t.TMap? then Gather(t, objs[..done])
                 else OList(objs))
  }

  /** Reading an aggregate from any bytes: after its head the components, in turn. If one
      fails so does the read, a container keeps the entries before it, and an aggregate of
      fixed size is left with the components read, the failed one and the rest untouched. */
  lemma AggregateReads(be: Backend, t: Ty, target: Obj, bytes: seq<Byte>, n: nat, size: nat)
    returns (ts: seq<Ty>, targets: seq<Obj>, objs: seq<Obj>, at: seq<nat>, used: nat)
    requires IsList(t) && StartsWithHead(t, bytes, n, size)
    ensures CanHave(t, n) && |ts| == |targets| == |objs| == n && size <= |bytes|
    ensures forall i :: 0 <= i < n ==> ts[i] == PartType(t, i) && targets[i] == PartTarget(t, target, n, i)
    ensures InTurn(be, t.TTuple? && !be.File?, ts, targets, bytes[size..], objs, at) && at[0] == 0
    ensures StopsAt(be, t.TTuple? && !be.File?, ts, targets, bytes[size..], objs, |at| - 1, at[|at| - 1], used)
    ensures IsOutcome(be, t, target, size, n, |at| - 1, objs,
                      CountsFrom(be, t.TTuple? && !be.File?, ts, targets, bytes[size..], at, 0), used,
                      ReadFrom(be, t, target, bytes))
  {
    hide ReadFrom, ReadAll, InTurn, StopsAt, CountsFrom, KidTargets, Kids, PartTarget, StartsWithHead, ReadHead, Gather;
    HeadFound(t, bytes, n, size);
    KidCount(t, n);
    ts := Kids(t, n);
    targets := KidTargets(t, target, ts);
    forall i | 0 <= i < n ensures ts[i] == PartType(t, i) && targets[i] == PartTarget(t, target, n, i) {
      KidAt(t, n, i);
      TargetAt(t, target, n, i);
    }
    var m := ReadAll(be, Narrows(t, be), ts, targets, bytes[size..]);
    at := ComponentsReadInTurn(be, Narrows(t, be), ts, targets, bytes[size..]);
    objs, used := m.objs, m.used;
    ReadListStep(be, t, target, bytes);
    Outcome(be, t, target, ReadHead(t, bytes), size, n, m);
  }

  lemma Outcome(be: Backend, t: Ty, target: Obj, h: Head, size: nat, n: nat, m: Readings)
    requires IsList(t) && CanHave(t, n) && m.n <= n == |m.objs| && h.Head? && h.used == size
    requires t.TOptional? ==> h.n == n
    ensures IsOutcome(be, t, target, size, n, m.n, m.objs, m.rc, m.used, FinishRead(be, t, target, h, n, m))
  {
    hide Gather;
    if IsPlain(t) {
      GatherPlain(t, m.objs);
    }
  }
}
