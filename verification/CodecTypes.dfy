/** The types the serializers handle, the values they write and the objects they read. */
module CodecTypes {
  import opened Bytes
  import opened EncodedInteger

  datatype Kind = Sequence | Set | Multiset

  /** Serializable types. Ordered and unordered containers are encoded alike; a container
      reads back as a collection of its `kind`, a map with unique or repeatable keys. */
  datatype Ty =
    | TInt(width: nat)                       // integers of 1, 2, 4 or 8 bytes
    | TBool
    | TFloat(width: nat)                     // float and double, in 4 or 8 XDR bytes
    | TString
    | TMono                                  // std::monostate
    | TPair(first: Ty, second: Ty)
    | TTuple(members: seq<Ty>)
    | TArray(elem: Ty, n: nat)               // std::array<T,N>
    | TBounded(elem: Ty, n: nat)             // T[N]
    | TCont(kind: Kind, elem: Ty)
    | TMap(unique: bool, key: Ty, mapped: Ty)
    | TVariant(alts: seq<Ty>)
    | TOptional(elem: Ty)

  /** Values as a writer meets them: integers as the unsigned reading of their bits, and
      every aggregate as the list of its components in the order they are visited, which
      for a container is its iteration order. An optional lists its value, if it has one. */
  datatype Val =
    | VInt(bits: nat)
    | VBool(b: bool)
    | VFloat(xdr: seq<Byte>)
    | VString(chars: seq<Byte>)
    | VMono
    | VList(items: seq<Val>)
    | VAlt(index: nat, content: Val)

  /** Objects as a reader leaves them, up to C++ equality. */
  datatype Obj =
    | OInt(bits: nat)
    | OBool(b: bool)
    | OFloat(xdr: seq<Byte>)
    | OString(chars: seq<Byte>)
    | OMono
    | OList(items: seq<Obj>)
    | OSet(members: set<Obj>)
    | OBag(bag: multiset<Obj>)
    | OMap(entries: map<Obj, Obj>)
    | OAlt(index: nat, content: Obj)

  function Copies(t: Ty, n: nat): (ts: seq<Ty>)
    ensures |ts| == n
  {
    if n == 0 then [] else [t] + Copies(t, n - 1)
  }

  /** Types whose components are visited one after the other. */
  predicate IsList(t: Ty) {
    t.TPair? || t.TTuple? || t.TArray? || t.TBounded? || t.TCont? || t.TMap? || t.TOptional?
  }

  function ElemType(t: Ty): Ty
    requires t.TCont? || t.TMap?
  {
    if t.TCont? then t.elem else TPair(t.key, t.mapped)
  }

  /** The component types of a list type; where their number varies it is `n`. */
  function Kids(t: Ty, n: nat): seq<Ty>
    requires IsList(t)
  {
    match t
    case TPair(a, b) => [a, b]
    case TTuple(ts) => ts
    case TArray(e, k) => Copies(e, k)
    case TBounded(e, k) => Copies(e, k)
    case TCont(_, e) => Copies(e, n)
    case TMap(_, k, m) => Copies(TPair(k, m), n)
    case TOptional(e) => Copies(e, Min(n, 1))
  }

  ghost predicate WellTyped(t: Ty, v: Val)
    decreases v, 0
  {
    match t
    case TInt(w) => (w == 1 || IsWidth(w)) && v.VInt? && v.bits < Pow256(w)
    case TBool => v.VBool?
    case TFloat(w) => (w == 4 || w == 8) && v.VFloat? && |v.xdr| == w
    case TString => v.VString? && |v.chars| < Pow256(8)
    case TMono => v.VMono?
    case TVariant(ts) => v.VAlt? && v.index < |ts| < Pow256(8) && WellTyped(t.alts[v.index], v.content)
    case _ => v.VList? && |v.items| < Pow256(8) && AllWellTyped(Kids(t, |v.items|), v.items)
  }

  ghost predicate AllWellTyped(ts: seq<Ty>, vs: seq<Val>)
    ensures AllWellTyped(ts, vs) ==> |ts| == |vs|
    decreases vs, 1
  {
    |ts| == |vs| && (ts == [] || (WellTyped(ts[0], vs[0]) && AllWellTyped(ts[1..], vs[1..])))
  }

  // How deep a type is, which is what bounds a read

  function Max(a: nat, b: nat): nat {
    if a < b then b else a
  }

  function Height(t: Ty): nat {
    match t
    case TPair(a, b) => 1 + Max(Height(a), Height(b))
    case TTuple(ts) => 1 + HeightAll(ts)
    case TArray(e, _) => 1 + Height(e)
    case TBounded(e, _) => 1 + Height(e)
    case TCont(_, e) => 1 + Height(e)
    case TMap(_, k, m) => 2 + Max(Height(k), Height(m))
    case TVariant(ts) => 1 + HeightAll(ts)
    case TOptional(e) => 1 + Height(e)
    case _ => 0
  }

  function HeightAll(ts: seq<Ty>): nat {
    if ts == [] then 0 else Max(Height(ts[0]), HeightAll(ts[1..]))
  }

  lemma {:induction false} AltHeight(ts: seq<Ty>, i: nat)
    requires i < |ts|
    ensures Height(ts[i]) <= HeightAll(ts)
  {
    if i > 0 {
      AltHeight(ts[1..], i - 1);
    }
  }

  lemma {:induction false} CopiesHeight(t: Ty, n: nat)
    ensures HeightAll(Copies(t, n)) <= Height(t)
  {
    if n > 0 {
      CopiesHeight(t, n - 1);
      assert Copies(t, n)[1..] == Copies(t, n - 1);
    }
  }

  lemma PairHeight(a: Ty, b: Ty)
    ensures HeightAll([a, b]) == Max(Height(a), Height(b))
  {
    assert [a, b][1..] == [b];
    assert HeightAll([b]) == Height(b);
  }

  lemma KidsHeight(t: Ty, n: nat)
    requires IsList(t)
    ensures HeightAll(Kids(t, n)) < Height(t)
  {
    match t
    case TPair(a, b) => PairHeight(a, b);
    case TTuple(_) =>
    case TArray(e, k) => CopiesHeight(e, k);
    case TBounded(e, k) => CopiesHeight(e, k);
    case TCont(_, e) => CopiesHeight(e, n);
    case TMap(_, k, m) => CopiesHeight(TPair(k, m), n);
    case TOptional(e) => CopiesHeight(e, Min(n, 1));
  }
}
