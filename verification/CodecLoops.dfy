/** What a loop over components has read or written, and what it has yet to. */
module CodecLoops {
  import opened Bytes
  import opened CodecTypes
  import opened Codec
  import opened CodecRoundTrip
  import opened CodecTheorems

  /** A call that returns `rc`, leaves `obj` and takes the stream from `before` to `after`
      does what `r` says. */
  ghost predicate ReadBy(r: Reading, rc: int, obj: Obj, before: seq<Byte>, after: seq<Byte>) {
    rc == r.rc && obj == r.obj && r.used <= |before| && after == before[r.used..]
  }

  /** The outcome of all components, when `objs` are read and `m` is that of the others. */
  function Prefixed(rc: int, objs: seq<Obj>, at: nat, m: Readings): Readings {
    Readings(|objs| + m.n, rc + m.rc, objs + m.objs, at + m.used)
  }

  /** The loop has read the first `i` components, with counts that add up to `rc`, and is
      at `at` in `input`. */
  ghost predicate Midway(be: Backend, narrow: bool, ts: seq<Ty>, targets: seq<Obj>, input: seq<Byte>,
                         i: nat, rc: int, objs: seq<Obj>, at: nat)
    requires |targets| == |ts|
  {
    && i == |objs| <= |ts| && at <= |input|
    && ReadAll(be, narrow, ts, targets, input)
       == Prefixed(rc, objs, at, ReadAll(be, narrow, ts[i..], targets[i..], input[at..]))
  }

  lemma AtStart(be: Backend, narrow: bool, ts: seq<Ty>, targets: seq<Obj>, input: seq<Byte>)
    requires |targets| == |ts|
    ensures Midway(be, narrow, ts, targets, input, 0, 0, [], 0)
  {
    assert ts[0..] == ts && targets[0..] == targets && input[0..] == input;
  }

  lemma AtEnd(be: Backend, narrow: bool, ts: seq<Ty>, targets: seq<Obj>, input: seq<Byte>, rc: int, objs: seq<Obj>,
          at: nat)
    requires |targets| == |ts| && Midway(be, narrow, ts, targets, input, |ts|, rc, objs, at)
    ensures ReadAll(be, narrow, ts, targets, input) == Readings(|ts|, rc, objs, at)
  {
  }

  /** The components in order: the first, and the others if it succeeds. */
  lemma FirstThenOthers(be: Backend, narrow: bool, ts: seq<Ty>, targets: seq<Obj>, bytes: seq<Byte>,
                        r: Reading, ts': seq<Ty>, targets': seq<Obj>, bytes': seq<Byte>)
    requires ts != [] && |targets| == |ts| && r == ReadFrom(be, ts[0], targets[0], bytes)
    requires ts' == ts[1..] && targets' == targets[1..] && r.used <= |bytes| && bytes' == bytes[r.used..]
    ensures ReadAll(be, narrow, ts, targets, bytes)
            == Combined(narrow, r, targets', ReadAll(be, narrow, ts', targets', bytes'))
  {
    hide ReadFrom, ReadAll, Kept;
    if Kept(narrow, r.rc) > 0 {
      ReadAllStep(be, narrow, ts, targets, bytes);
    } else {
      ReadAllStops(be, narrow, ts, targets, bytes);
    }
  }

  lemma From<X>(s: seq<X>, i: nat)
    requires i < |s|
    ensures s[i..][0] == s[i] && s[i..][1..] == s[i + 1..]
  {
  }

  lemma FromTwice<X>(s: seq<X>, i: nat, j: nat)
    requires i + j <= |s|
    ensures s[i..][j..] == s[i + j..]
  {
  }

  /** How a first reading and the others combine. */
  function Combined(narrow: bool, r: Reading, others: seq<Obj>, m: Readings): Readings {
    if Kept(narrow, r.rc) > 0 then Readings(1 + m.n, Kept(narrow, r.rc) + m.rc, [r.obj] + m.objs, r.used + m.used)
    else Readings(0, 0, [r.obj] + others, r.used)
  }

  lemma PrefixedOnward(narrow: bool, rc: int, objs: seq<Obj>, at: nat, r: Reading, others: seq<Obj>, m: Readings)
    ensures Prefixed(rc, objs, at, Combined(narrow, r, others, m))
            == if Kept(narrow, r.rc) > 0 then Prefixed(rc + Kept(narrow, r.rc), objs + [r.obj], at + r.used, m)
               else Readings(|objs|, rc, objs + [r.obj] + others, at + r.used)
  {
    assert objs + ([r.obj] + m.objs) == objs + [r.obj] + m.objs;
    assert objs + ([r.obj] + others) == objs + [r.obj] + others;
  }

  /** The same in the middle of a loop. */
  lemma NextThenOthers(be: Backend, narrow: bool, ts: seq<Ty>, targets: seq<Obj>, input: seq<Byte>, i: nat, at: nat,
          r: Reading)
    requires |targets| == |ts| && i < |ts| && at <= |input| && r == ReadFrom(be, ts[i], targets[i], input[at..])
    ensures at + r.used <= |input|
    ensures ReadAll(be, narrow, ts[i..], targets[i..], input[at..])
            == Combined(narrow, r, targets[i + 1..],
               ReadAll(be, narrow, ts[i + 1..], targets[i + 1..], input[at + r.used..]))
  {
    From(ts, i);
    From(targets, i);
    FromTwice(input, at, r.used);
    FirstThenOthers(be, narrow, ts[i..], targets[i..], input[at..], r, ts[i + 1..], targets[i + 1..],
                    input[at + r.used..]);
  }

  /** One more component, `x`: the loop goes on after a positive count, and stops otherwise. */
  lemma NextRead(be: Backend, narrow: bool, ts: seq<Ty>, targets: seq<Obj>, input: seq<Byte>, i: nat, rc: int,
          objs: seq<Obj>, at: nat,
               r: Reading, count: int, x: Obj)
    requires |targets| == |ts| && i < |ts| && Midway(be, narrow, ts, targets, input, i, rc, objs, at)
    requires r == ReadFrom(be, ts[i], targets[i], input[at..]) && count == Kept(narrow, r.rc) && x == r.obj
    ensures at + r.used <= |input| && input[at..][r.used..] == input[at + r.used..]
    ensures count > 0 ==> Midway(be, narrow, ts, targets, input, i + 1, rc + count, objs + [x], at + r.used)
    ensures count <= 0 ==>
              ReadAll(be, narrow, ts, targets, input) == Readings(i, rc, objs + [x] + targets[i + 1..], at + r.used)
  {
    hide ReadFrom, ReadAll;
    NextThenOthers(be, narrow, ts, targets, input, i, at, r);
    FromTwice(input, at, r.used);
    PrefixedOnward(narrow, rc, objs, at, r, targets[i + 1..],
                   ReadAll(be, narrow, ts[i + 1..], targets[i + 1..], input[at + r.used..]));
  }

  lemma GatherAppend(t: Ty, objs: seq<Obj>, x: Obj)
    ensures Gather(t, objs + [x]) == Insert(Gather(t, objs), x)
  {
    assert (objs + [x])[..|objs|] == objs;
  }

  /** Elements of a container are read into new objects. */
  lemma {:induction false} DefaultsAt(e: Ty, n: nat, i: nat)
    requires i < n
    ensures Copies(e, n)[i] == e && Defaults(Copies(e, n))[i] == Default(e)
  {
    assert Copies(e, n)[1..] == Copies(e, n - 1);
    if i > 0 {
      DefaultsAt(e, n - 1, i - 1);
    }
  }

  lemma {:induction false} CopiesAt(e: Ty, n: nat, i: nat)
    requires i < n
    ensures Copies(e, n)[i] == e
  {
    if i > 0 {
      CopiesAt(e, n - 1, i - 1);
    }
  }

  const NOTHING := Readings(0, 0, [], 0)

  lemma LastOfPair(be: Backend, b: Ty, part: Obj, input: seq<Byte>, s: Reading)
    requires s == ReadFrom(be, b, part, input)
    ensures ReadAll(be, false, [b], [part], input) == Combined(false, s, [], NOTHING)
  {
    FirstThenOthers(be, false, [b], [part], input, s, [], [], input[s.used..]);
  }

  lemma PairOfReadings(be: Backend, a: Ty, b: Ty, parts: seq<Obj>, input: seq<Byte>, r: Reading, s: Reading)
    requires |parts| == 2 && r == ReadFrom(be, a, parts[0], input) && s == ReadFrom(be, b, parts[1], input[r.used..])
    ensures ReadAll(be, false, [a, b], parts, input) == Combined(false, r, [parts[1]], Combined(false, s, [], NOTHING))
  {
    assert [a, b][1..] == [b] && parts[1..] == [parts[1]];
    FirstThenOthers(be, false, [a, b], parts, input, r, [b], [parts[1]], input[r.used..]);
    LastOfPair(be, b, parts[1], input[r.used..], s);
  }

  /** A pair is its two components, read one after the other. */
  function PairOf(be: Backend, part: Obj, r: Reading, s: Reading): Reading {
    if r.rc <= 0 then Reading(Fail(be), OList([r.obj, part]), r.used)
    else
      var rc := if s.rc <= 0 then Fail(be) else if be.File? then 1 else r.rc + s.rc;
      Reading(rc, OList([r.obj, s.obj]), r.used + s.used)
  }

  lemma PairReading(be: Backend, t: Ty, target: Obj, input: seq<Byte>, r: Reading, s: Reading)
    requires t.TPair?
    requires var parts := KidTargets(t, target, [t.first, t.second]);
             r == ReadFrom(be, t.first, parts[0], input) && s == ReadFrom(be, t.second, parts[1], input[r.used..])
    ensures ReadFrom(be, t, target, input) == PairOf(be, KidTargets(t, target, [t.first, t.second])[1], r, s)
  {
    hide ReadFrom, ReadAll;
    var parts := KidTargets(t, target, [t.first, t.second]);
    PairOfReadings(be, t.first, t.second, parts, input, r, s);
    assert input[0..] == input;
    ReadListStep(be, t, target, input);
    FinishPair(be, t, target, parts[1], r, s);
  }

  lemma FinishPair(be: Backend, t: Ty, target: Obj, part: Obj, r: Reading, s: Reading)
    requires t.TPair?
    ensures var m := Combined(false, r, [part], Combined(false, s, [], NOTHING));
            m.n <= |m.objs| && FinishRead(be, t, target, Head(0, 0), 2, m) == PairOf(be, part, r, s)
  {
    hide Gather;
    GatherPlain(t, Combined(false, r, [part], Combined(false, s, [], NOTHING)).objs);
  }

  /** An optional that has a value is the one component. */
  lemma EngagedReading(be: Backend, t: Ty, target: Obj, input: seq<Byte>)
    requires t.TOptional? && input != [] && input[0] != 0
    ensures var part := KidTargets(t, target, [t.elem])[0];
            var r := ReadFrom(be, t.elem, part, input[1..]);
            ReadFrom(be, t, target, input)
            == Reading(if r.rc <= 0 then Fail(be) else if be.File? then r.rc else 1 + r.rc, OList([r.obj]), 1 + r.used)
  {
    hide ReadFrom, ReadAll, Gather;
    var parts := KidTargets(t, target, [t.elem]);
    var r := ReadFrom(be, t.elem, parts[0], input[1..]);
    OneOf(t.elem);
    assert parts == [parts[0]];
    LastOfPair(be, t.elem, parts[0], input[1..], r);
    ReadListStep(be, t, target, input);
    GatherPlain(t, Combined(false, r, [], NOTHING).objs);
    assert [r.obj] + [] == [r.obj];
  }

  lemma OneOf(e: Ty)
    ensures Copies(e, 1) == [e]
  {
    assert Copies(e, 0) == [];
  }

  lemma EmptyReading(be: Backend, t: Ty, target: Obj, input: seq<Byte>)
    requires t.TOptional? && input != [] && input[0] == 0
    ensures ReadFrom(be, t, target, input) == Reading(1, if be.File? then OList([]) else target, 1)
  {
    ReadListStep(be, t, target, input);
    assert Copies(t.elem, 0) == [];
  }

  /** The elements of a container, read until one fails: those read are kept. */
  ghost predicate ElementsBy(t: Ty, n: nat, m: Readings, ok: bool, rc: int, obj: Obj, before: seq<Byte>,
          after: seq<Byte>) {
    && m.n <= |m.objs| && m.used <= |before|
    && ok == (m.n == n) && (ok ==> rc == m.rc) && obj == Gather(t, m.objs[..m.n])
    && after == before[m.used..]
  }

  lemma KeptObjects(objs: seq<Obj>, x: Obj, others: seq<Obj>)
    ensures (objs + [x] + others)[..|objs|] == objs
  {
  }

  /** A container is its head and its elements. */
  lemma ContainerReadBy(be: Backend, t: Ty, target: Obj, input: seq<Byte>, rest: seq<Byte>, m: Readings,
                        ok: bool, sum: int, rc: int, obj: Obj, after: seq<Byte>)
    requires (t.TCont? || t.TMap?) && ReadHead(t, input).Head? && rest == input[ReadHead(t, input).used..]
    requires var ts := Copies(ElemType(t), ReadHead(t, input).n); m == ReadAll(be, false, ts, Defaults(ts), rest)
    requires ElementsBy(t, ReadHead(t, input).n, m, ok, sum, obj, rest, after)
    requires rc == if !ok then Fail(be) else if be.File? then 1 else ReadHead(t, input).used + sum
    ensures ReadBy(ReadFrom(be, t, target, input), rc, obj, input, after)
  {
    hide ReadFrom, ReadAll, Gather, Defaults, Copies, ReadCount, Emptied;
    var h := ReadHead(t, input);
    assert Kids(t, h.n) == Copies(ElemType(t), h.n);
    ReadListStep(be, t, target, input);
    FromTwice(input, h.used, m.used);
  }

  /** A variant is its index and its content. */
  lemma VariantReadBy(be: Backend, t: Ty, target: Obj, input: seq<Byte>, rest: seq<Byte>, count: int, rc: int, x: Obj,
          after: seq<Byte>)
    requires t.TVariant? && ReadWord(input).Head? && ReadWord(input).n < |t.alts| && rest == input[8..]
    requires var alt := t.alts[ReadWord(input).n]; ReadBy(ReadFrom(be, alt, Default(alt), rest), count, x, rest, after)
    requires rc == VariantCount(be, count)
    ensures ReadBy(ReadFrom(be, t, target, input), rc, OAlt(ReadWord(input).n, x), input, after)
  {
    var alt := t.alts[ReadWord(input).n];
    ReadVariantStep(be, t, target, input);
    FromTwice(input, 8, ReadFrom(be, alt, Default(alt), rest).used);
  }

  /** A string is its length and its characters, if there are as many. */
  lemma WholeStringReadBy(be: Backend, target: Obj, input: seq<Byte>, n: nat, rest: seq<Byte>)
    requires !be.File? && n <= |rest|
    requires var h := ReadCount(input); h.Head? && h.n == n && rest == input[h.used..]
    ensures ReadBy(ReadString(be, target, input), |input| - |rest| + n, OString(rest[..n]), input, rest[n..])
  {
    hide ReadCount, Zeros;
    var used := ReadCount(input).used;
    FromTwice(input, used, n);
    assert input[used..used + n] == rest[..n];
  }

  lemma PartStringReadBy(be: Backend, target: Obj, input: seq<Byte>, n: nat, rest: seq<Byte>)
    requires !be.File? && |rest| < n
    requires var h := ReadCount(input); h.Head? && h.n == n && rest == input[h.used..]
    ensures ReadBy(ReadString(be, target, input),
                   -1, OString(if be.Gz? then rest + Zeros(n - |rest|) else []), input, [])
  {
    hide ReadCount, Zeros;
  }

  // Reads that fail before the first component

  lemma NoString(be: Backend, target: Obj, input: seq<Byte>)
    requires if be.File? then ReadWord(input).NoHead? else ReadCount(input).NoHead?
    ensures var h := if be.File? then ReadWord(input) else ReadCount(input);
            ReadString(be, target, input) == Reading(Fail(be), if be.Bz2? then target else OString([]), h.used)
  {
  }

  lemma CountsTakeBytes(input: seq<Byte>)
    ensures ReadCount(input).Head? ==> ReadCount(input).used >= 2
  {
  }

  lemma Headless(be: Backend, t: Ty, target: Obj, input: seq<Byte>)
    requires IsList(t) && ReadHead(t, input).NoHead?
    ensures ReadFrom(be, t, target, input)
            == Reading(Fail(be), if t.TCont? || t.TMap? then Emptied(t) else target, ReadHead(t, input).used)
  {
  }

  lemma NoAlternative(be: Backend, t: Ty, target: Obj, input: seq<Byte>)
    requires t.TVariant?
    requires ReadWord(input).Head? ==> ReadWord(input).n >= |t.alts|
    ensures ReadFrom(be, t, target, input)
            == Reading(if ReadWord(input).Head? && (be.Gz? || be.Bz2?) then 8 else Fail(be),
                       target, ReadWord(input).used)
  {
  }

  lemma GatherNone(t: Ty)
    ensures Gather(t, []) == Emptied(t)
  {
  }

  /** FileIO's results are not signed. */
  lemma {:induction false} NeverNegative(be: Backend, t: Ty, target: Obj, input: seq<Byte>)
    requires be.File?
    ensures ReadFrom(be, t, target, input).rc >= 0
    decreases Height(t), 0
  {
    if IsList(t) {
      var h := ReadHead(t, input);
      if h.Head? {
        var ts := Kids(t, h.n);
        KidsHeight(t, h.n);
        NoneNegative(be, ts, KidTargets(t, target, ts), input[h.used..]);
        ReadListStep(be, t, target, input);
      }
    } else if t.TVariant? {
      var h := ReadWord(input);
      if h.Head? && h.n < |t.alts| {
        AltHeight(t.alts, h.n);
        NeverNegative(be, t.alts[h.n], Default(t.alts[h.n]), input[8..]);
        ReadVariantStep(be, t, target, input);
      }
    }
  }

  lemma {:induction false} NoneNegative(be: Backend, ts: seq<Ty>, targets: seq<Obj>, input: seq<Byte>)
    requires be.File? && |targets| == |ts|
    ensures ReadAll(be, false, ts, targets, input).rc >= 0
    decreases HeightAll(ts), 1, |ts|
  {
    if ts != [] {
      var r := ReadFrom(be, ts[0], targets[0], input);
      NeverNegative(be, ts[0], targets[0], input);
      NoneNegative(be, ts[1..], targets[1..], input[r.used..]);
    }
  }

  /** An array or a tuple is its components. */
  lemma ArrayIs(be: Backend, t: Ty, target: Obj, input: seq<Byte>)
    requires t.TArray? || t.TTuple?
    ensures var ts := Kids(t, 0);
            var m := ReadAll(be, Narrows(t, be), ts, KidTargets(t, target, ts), input);
            var rc := if m.n < |ts| then Fail(be) else if be.File? then 1 else m.rc;
            ReadFrom(be, t, target, input) == Reading(rc, OList(m.objs), m.used)
  {
    hide ReadFrom, ReadAll, Gather, KidTargets, Kids;
    var ts := Kids(t, 0);
    assert input[0..] == input;
    ReadListStep(be, t, target, input);
    GatherPlain(t, ReadAll(be, Narrows(t, be), ts, KidTargets(t, target, ts), input).objs);
  }

  /** A bounded array whose extent was right. */
  lemma BoundedIs(be: Backend, t: Ty, target: Obj, input: seq<Byte>)
    requires t.TBounded? && ReadWord(input) == Head(t.n, 8)
    ensures var ts := Kids(t, t.n);
            var m := ReadAll(be, false, ts, KidTargets(t, target, ts), input[8..]);
            var rc := if m.n < |ts| then Fail(be) else if be.File? then 1 else 8 + m.rc;
            ReadFrom(be, t, target, input) == Reading(rc, OList(m.objs), 8 + m.used)
  {
    hide ReadFrom, ReadAll, Gather, ReadWord, KidTargets, Copies;
    var ts := Kids(t, t.n);
    ReadListStep(be, t, target, input);
    GatherPlain(t, ReadAll(be, false, ts, KidTargets(t, target, ts), input[8..]).objs);
  }
}
