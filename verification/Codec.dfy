/** The binary encoding, and what each backend's Read and Write do, as functions. */
module Codec {
  import opened Bytes
  import opened EncodedInteger
  import opened CodecTypes

  /** A backend on a machine of byte order `native`. DescriptorIO, GZIO and BZ2IO return byte
      counts, or -1; FileIO returns 0 for failure. */
  datatype Backend = Descriptor(native: Endian) | Gz(native: Endian) | Bz2(native: Endian) | File(native: Endian)

  function Fail(be: Backend): int {
    if be.File? then 0 else -1
  }

  // The encoding

  function LengthBytes(w: Backend, n: nat): (s: seq<Byte>)
    requires n < Pow256(8)
  {
    if w.File? then ToBytes(Big, n, 8) else Wire(w.native, false, n, 8)
  }

  function EncodeLeaf(w: Backend, t: Ty, v: Val): seq<Byte>
    requires WellTyped(t, v) && !IsList(t) && !t.TVariant?
  {
    match t
    case TInt(width) => ToBytes(Big, v.bits, width)
    case TBool => [if v.b then 1 else 0]
    case TFloat(_) => v.xdr
    case TString => LengthBytes(w, |v.chars|) + v.chars
    case TMono => []
  }

  /** What precedes the components of a list type: nothing, the extent of a bounded array,
      the number of entries of a container, or the flag of an optional. */
  function HeadBytes(w: Backend, t: Ty, n: nat): seq<Byte>
    requires n < Pow256(8)
  {
    match t
    case TBounded(_, _) => ToBytes(Big, n, 8)
    case TCont(_, _) => Wire(w.native, false, n, 8)
    case TMap(_, _, _) => Wire(w.native, false, n, 8)
    case TOptional(_) => [if n == 0 then 0 else 1]
    case _ => []
  }

  function Encode(w: Backend, t: Ty, v: Val): seq<Byte>
    requires WellTyped(t, v)
    decreases v, 0
  {
    if IsList(t) then HeadBytes(w, t, |v.items|) + EncodeAll(w, Kids(t, |v.items|), v.items)
    else if t.TVariant? then ToBytes(Big, v.index, 8) + Encode(w, t.alts[v.index], v.content)
    else EncodeLeaf(w, t, v)
  }

  function EncodeAll(w: Backend, ts: seq<Ty>, vs: seq<Val>): seq<Byte>
    requires AllWellTyped(ts, vs)
    decreases vs, 1
  {
    if ts == [] then [] else Encode(w, ts[0], vs[0]) + EncodeAll(w, ts[1..], vs[1..])
  }

  // Objects

  /** The collection that an emptied target is. */
  function Emptied(t: Ty): Obj {
    match t
    case TCont(Set, _) => OSet({})
    case TCont(Multiset, _) => OBag(multiset{})
    case TMap(true, _, _) => OMap(map[])
    case TMap(false, _, _) => OBag(multiset{})
    case _ => OList([])
  }

  function Key(entry: Obj): Obj {
    if entry.OList? && |entry.items| == 2 then entry.items[0] else entry
  }

  function Mapped(entry: Obj): Obj {
    if entry.OList? && |entry.items| == 2 then entry.items[1] else entry
  }

  /** insert(): a sequence grows at the end, a set ignores what it has, and a map with
      unique keys keeps the entry it has. */
  function Insert(c: Obj, x: Obj): Obj {
    match c
    case OList(items) => OList(items + [x])
    case OSet(members) => OSet(members + {x})
    case OBag(bag) => OBag(bag + multiset{x})
    case OMap(entries) => if Key(x) in entries then c else OMap(entries[Key(x) := Mapped(x)])
    case _ => c
  }

  /** The object of type `t` with these components, visited in order. */
  function Gather(t: Ty, objs: seq<Obj>): Obj {
    if objs == [] then Emptied(t) else Insert(Gather(t, objs[..|objs| - 1]), objs[|objs| - 1])
  }

  function Default(t: Ty): Obj
    decreases Height(t), 0
  {
    match t
    case TInt(_) => OInt(0)
    case TBool => OBool(false)
    case TFloat(w) => OFloat(Zeros(w))
    case TString => OString([])
    case TMono => OMono
    case TVariant(ts) => if ts == [] then OMono else AltHeight(ts, 0); OAlt(0, Default(ts[0]))
    case _ => KidsHeight(t, 0); Gather(t, Defaults(Kids(t, 0)))
  }

  function Defaults(ts: seq<Ty>): (objs: seq<Obj>)
    ensures |objs| == |ts|
    decreases HeightAll(ts), 1, |ts|
  {
    if ts == [] then [] else [Default(ts[0])] + Defaults(ts[1..])
  }

  /** The object a value is. */
  function Abs(t: Ty, v: Val): Obj
    requires WellTyped(t, v)
    decreases v, 0
  {
    if IsList(t) then Gather(t, AbsAll(Kids(t, |v.items|), v.items))
    else if t.TVariant? then OAlt(v.index, Abs(t.alts[v.index], v.content))
    else AbsLeaf(t, v)
  }

  function AbsLeaf(t: Ty, v: Val): Obj
    requires WellTyped(t, v) && !IsList(t) && !t.TVariant?
  {
    match t
    case TInt(_) => OInt(v.bits)
    case TBool => OBool(v.b)
    case TFloat(_) => OFloat(v.xdr)
    case TString => OString(v.chars)
    case TMono => OMono
  }

  function AbsAll(ts: seq<Ty>, vs: seq<Val>): (objs: seq<Obj>)
    requires AllWellTyped(ts, vs)
    ensures |objs| == |ts|
    decreases vs, 1
  {
    if ts == [] then [] else [Abs(ts[0], vs[0])] + AbsAll(ts[1..], vs[1..])
  }

  // Reading

  /** What a Read returns, what it leaves in its target and how many bytes it consumed. */
  datatype Reading = Reading(rc: int, obj: Obj, used: nat)

  /** What reading components one after the other gives, up to the first that fails:
      how many succeeded, the sum of their counts, the objects and the bytes consumed. */
  datatype Readings = Readings(n: nat, rc: int, objs: seq<Obj>, used: nat)

  /** What reading a scalar from too few bytes, `got` of them, returns. */
  function ShortRead(be: Backend, t: Ty, got: nat): int {
    if be.File? then 0
    else if t.TBool? then (if be.Descriptor? then got else -1)
    else if t.TFloat? then (if be.Bz2? then -1 else got)
    else if t.TInt? && t.width == 1 then got
    else if t.TInt? && t.width < 8 && !be.Descriptor? then got
    else -1
  }

  /** What it leaves: DescriptorIO reads integers straight into their memory, of which the
      first bytes change; all others read into a buffer. */
  function ShortTarget(be: Backend, t: Ty, target: Obj, got: seq<Byte>): Obj {
    if be.Descriptor? && t.TInt? && target.OInt? && |got| < t.width then
      OInt(FromBytes(be.native, got + ToBytes(be.native, target.bits, t.width)[|got|..]))
    else
      target
  }

  function ReadScalar(be: Backend, t: Ty, width: nat, target: Obj, bytes: seq<Byte>): (r: Reading)
    requires t.TInt? || t.TFloat? || (t.TBool? && width == 1)
    ensures r.used <= |bytes|
  {
    if |bytes| < width then
      Reading(ShortRead(be, t, |bytes|), ShortTarget(be, t, target, bytes), |bytes|)
    else
      var s := bytes[..width];
      var obj := if t.TInt? then OInt(FromBytes(Big, s)) else if t.TFloat? then OFloat(s) else OBool(s[0] != 0);
      Reading(width, obj, width)
  }

  /** A number in front of what it counts, and the bytes it took; none if they run out. */
  datatype Head = NoHead(used: nat) | Head(n: nat, used: nat)

  function ReadWord(bytes: seq<Byte>): (h: Head)
    ensures h.used <= |bytes|
  {
    if |bytes| < 8 then NoHead(|bytes|) else Head(FromBytes(Big, bytes[..8]), 8)
  }

  function ReadCount(bytes: seq<Byte>): (h: Head)
    ensures h.used <= |bytes|
  {
    match Unwire(bytes, 8)
    case Some(u) => Head(u.magnitude, u.used)
    case None => NoHead(|bytes|)
  }

  /** A string that failed: BZ2IO clears it late, and GZIO not at all once it has its size. */
  function ReadString(be: Backend, target: Obj, bytes: seq<Byte>): (r: Reading)
    ensures r.used <= |bytes|
  {
    var h := if be.File? then ReadWord(bytes) else ReadCount(bytes);
    if h.NoHead? then
      Reading(Fail(be), if be.Bz2? then target else OString([]), h.used)
    else if |bytes| - h.used < h.n then
      Reading(Fail(be), OString(if be.Gz? then bytes[h.used..] + Zeros(h.n - (|bytes| - h.used)) else []), |bytes|)
    else
      Reading(h.used + h.n, OString(bytes[h.used..h.used + h.n]), h.used + h.n)
  }

  function ReadLeaf(be: Backend, t: Ty, target: Obj, bytes: seq<Byte>): (r: Reading)
    requires !IsList(t) && !t.TVariant?
    ensures r.used <= |bytes|
  {
    match t
    case TInt(width) => ReadScalar(be, t, width, target, bytes)
    case TBool => ReadScalar(be, t, 1, target, bytes)
    case TFloat(width) => ReadScalar(be, t, width, target, bytes)
    case TString => ReadString(be, target, bytes)
    case TMono => Reading(if be.File? then 1 else 0, OMono, 0)
  }

  /** The head of a list type. A bounded array insists on its own extent. */
  function ReadHead(t: Ty, bytes: seq<Byte>): (h: Head)
    ensures h.used <= |bytes|
  {
    match t
    case TBounded(_, k) => var h := ReadWord(bytes); if h.Head? && h.n != k then NoHead(h.used) else h
    case TCont(_, _) => ReadCount(bytes)
    case TMap(_, _, _) => ReadCount(bytes)
    case TOptional(_) => if bytes == [] then NoHead(0) else Head(if bytes[0] != 0 then 1 else 0, 1)
    case _ => Head(0, 0)
  }

  /** Where the components of a list type are read into: those of the target, where it
      has as many, and new ones otherwise. Containers are emptied first. */
  function KidTargets(t: Ty, target: Obj, ts: seq<Ty>): (objs: seq<Obj>)
    ensures |objs| == |ts|
  {
    if !t.TCont? && !t.TMap? && target.OList? && |target.items| == |ts| then target.items else Defaults(ts)
  }

  /** A count as an int: tuple members are narrowed on the way. */
  function Narrow(rc: int): int
    decreases if rc >= 0x8000_0000 then rc - 0x7fff_ffff else if rc < -0x8000_0000 then -rc else 0
  {
    if rc < -0x8000_0000 then Narrow(rc + 0x1_0000_0000)
    else if rc >= 0x8000_0000 then Narrow(rc - 0x1_0000_0000)
    else rc
  }

  /** The count of a component as it is tested and added up. */
  function Kept(narrow: bool, rc: int): int {
    if narrow then Narrow(rc) else rc
  }

  /** Whether the counts of components pass through an int. */
  function Narrows(t: Ty, be: Backend): bool {
    t.TTuple? && !be.File?
  }

  /** Every Read but FileIO's resets nothing when an optional turns out to be empty. */
  function FinishRead(be: Backend, t: Ty, target: Obj, h: Head, kids: nat, m: Readings): Reading
    requires h.Head? && m.n <= |m.objs|
  {
    var rc := if m.n < kids then Fail(be)
              else if !be.File? then h.used + m.rc
              else if t.TOptional? && kids == 1 then m.rc
              else 1;
    var obj := if t.TOptional? && h.n == 0 then (if be.File? then OList([]) else target)
               else if t.TCont? || t.TMap? then Gather(t, m.objs[..m.n])
               else Gather(t, m.objs);
    Reading(rc, obj, h.used + m.used)
  }

  function ReadFrom(be: Backend, t: Ty, target: Obj, bytes: seq<Byte>): (r: Reading)
    ensures r.used <= |bytes|
    decreases Height(t), 0
  {
    if IsList(t) then
      var h := ReadHead(t, bytes);
      if h.NoHead? then
        Reading(Fail(be), if t.TCont? || t.TMap? then Emptied(t) else target, h.used)
      else
        var ts := Kids(t, h.n);
        KidsHeight(t, h.n);
        FinishRead(be, t, target, h, |ts|, ReadAll(be, Narrows(t, be), ts, KidTargets(t, target, ts), bytes[h.used..]))
    else if t.TVariant? then
      var h := ReadWord(bytes);
      if h.NoHead? then Reading(Fail(be), target, h.used)
      else if h.n >= |t.alts| then Reading(if be.Gz? || be.Bz2? then 8 else Fail(be), target, 8)
      else
        AltHeight(t.alts, h.n);
        var r := ReadFrom(be, t.alts[h.n], Default(t.alts[h.n]), bytes[8..]);
        Reading(VariantCount(be, r.rc), OAlt(h.n, r.obj), 8 + r.used)
    else
      ReadLeaf(be, t, target, bytes)
  }

  /** DescriptorIO accepts a content that reads as zero bytes; GZIO and BZ2IO add the
      eight bytes of the index to whatever reading the content returned. */
  function VariantCount(be: Backend, rc: int): int {
    match be
    case File(_) => rc
    case Descriptor(_) => if rc >= 0 then 8 + rc else -1
    case _ => rc + 8
  }

  function ReadAll(be: Backend, narrow: bool, ts: seq<Ty>, targets: seq<Obj>, bytes: seq<Byte>): (m: Readings)
    requires |targets| == |ts|
    ensures m.n <= |ts| == |m.objs| && m.used <= |bytes|
    decreases HeightAll(ts), 1, |ts|
  {
    if ts == [] then
      Readings(0, 0, [], 0)
    else
      var r := ReadFrom(be, ts[0], targets[0], bytes);
      var rc := Kept(narrow, r.rc);
      if rc > 0 then
        var m := ReadAll(be, narrow, ts[1..], targets[1..], bytes[r.used..]);
        Readings(1 + m.n, rc + m.rc, [r.obj] + m.objs, r.used + m.used)
      else
        Readings(0, 0, [r.obj] + targets[1..], r.used)
  }

  // Writing

  /** What a Write returns, and the bytes that the stream has accepted. */
  datatype Writing = Writing(rc: int, sent: seq<Byte>) {
    function Used(): nat {
      |sent|
    }
  }

  /** The same for components one after the other, up to the first that fails. */
  datatype Writings = Writings(n: nat, rc: int, sent: seq<Byte>) {
    function Used(): nat {
      |sent|
    }
  }

  /** As much of the bytes as there is room for. */
  function Clip(s: seq<Byte>, room: nat): (r: seq<Byte>)
    ensures |r| == Min(|s|, room)
  {
    s[..Min(|s|, room)]
  }

  /** What writing a scalar returns when only `got` of its bytes are accepted. */
  function ShortWrite(be: Backend, t: Ty, got: nat): int {
    if be.File? then 0
    else if t.TBool? then got
    else if t.TInt? && (be.Descriptor? || t.width < 8) then got
    else -1
  }

  function WriteLeaf(w: Backend, t: Ty, v: Val, room: nat): (r: Writing)
    requires WellTyped(t, v) && !IsList(t) && !t.TVariant?
    ensures |r.sent| <= room
  {
    var bytes := EncodeLeaf(w, t, v);
    if t.TMono? then Writing(if w.File? then 1 else 0, [])
    else if |bytes| <= room then Writing(|bytes|, bytes)
    else Writing(ShortWrite(w, t, room), bytes[..room])
  }

  /** A container's Write adds what the range of its elements returns to the size of its
      head, and the -1 of a failed range passes through an unsigned variable. */
  function FinishWrite(be: Backend, t: Ty, head: seq<Byte>, kids: nat, m: Writings): Writing {
    var rc := if be.File? then (if m.n < kids then 0 else if t.TOptional? && kids == 1 then m.rc else 1)
              else if m.n < kids then (if t.TCont? || t.TMap? then |head| - 1 else -1)
              else |head| + m.rc;
    Writing(rc, head + m.sent)
  }

  function WriteTo(w: Backend, t: Ty, v: Val, room: nat): (r: Writing)
    requires WellTyped(t, v)
    ensures |r.sent| <= room
    decreases v, 0
  {
    if IsList(t) then
      var head := HeadBytes(w, t, |v.items|);
      if room < |head| then
        Writing(Fail(w), head[..room])
      else
        var ts := Kids(t, |v.items|);
        FinishWrite(w, t, head, |ts|, WriteAll(w, Narrows(t, w), ts, v.items, room - |head|))
    else if t.TVariant? then
      var head := Clip(ToBytes(Big, v.index, 8), room);
      if |head| < 8 && !(w.Descriptor? && room > 0) then
        Writing(Fail(w), head)
      else
        var r := WriteTo(w, t.alts[v.index], v.content, room - |head|);
        Writing(if w.File? then r.rc else if r.rc >= 0 then |head| + r.rc else -1, head + r.sent)
    else
      WriteLeaf(w, t, v, room)
  }

  function WriteAll(w: Backend, narrow: bool, ts: seq<Ty>, vs: seq<Val>, room: nat): (m: Writings)
    requires AllWellTyped(ts, vs)
    ensures m.n <= |ts| && |m.sent| <= room
    decreases vs, 1
  {
    if ts == [] then
      Writings(0, 0, [])
    else
      var r := WriteTo(w, ts[0], vs[0], room);
      var rc := Kept(narrow, r.rc);
      if rc > 0 then
        var m := WriteAll(w, narrow, ts[1..], vs[1..], room - |r.sent|);
        Writings(1 + m.n, rc + m.rc, r.sent + m.sent)
      else
        Writings(0, 0, r.sent)
  }
}
