/** Bytes, positional values and the two byte orders of a machine word. */
module Bytes {

  type Byte = b: int | 0 <= b < 256

  const TWO_TO_64: int := 0x1_0000_0000_0000_0000

  datatype Endian = Little | Big

  datatype Option<+T> = None | Some(value: T)

  function Min(a: int, b: int): int {
    if a < b then a else b
  }

  function Pow256(n: nat): (p: nat)
    ensures p >= 1
  {
    if n == 0 then 1 else 256 * Pow256(n - 1)
  }

  function Zeros(n: nat): (s: seq<Byte>)
    ensures |s| == n
  {
    seq(n, i => 0)
  }

  function Reverse(s: seq<Byte>): (r: seq<Byte>)
    ensures |r| == |s|
    ensures forall i :: 0 <= i < |s| ==> r[i] == s[|s| - 1 - i]
  {
    seq(|s|, i requires 0 <= i < |s| => s[|s| - 1 - i])
  }

  /** The low `n` bytes of `v`, least significant first. */
  function ToLittle(v: nat, n: nat): (s: seq<Byte>)
    ensures |s| == n
  {
    if n == 0 then [] else [v % 256] + ToLittle(v / 256, n - 1)
  }

  function FromLittle(s: seq<Byte>): nat {
    if s == [] then 0 else s[0] + 256 * FromLittle(s[1..])
  }

  /** The low `n` bytes of `v` in the byte order of a machine. */
  function ToBytes(e: Endian, v: nat, n: nat): (s: seq<Byte>)
    ensures |s| == n
  {
    if e.Little? then ToLittle(v, n) else Reverse(ToLittle(v, n))
  }

  function FromBytes(e: Endian, s: seq<Byte>): nat {
    FromLittle(if e.Little? then s else Reverse(s))
  }

  lemma Pow256Monotone(m: nat, n: nat)
    requires m <= n
    ensures Pow256(m) <= Pow256(n)
  {
    if m < n {
      Pow256Monotone(m, n - 1);
    }
  }

  lemma {:induction false} FromLittleBound(s: seq<Byte>)
    ensures FromLittle(s) < Pow256(|s|)
  {
    if s != [] {
      FromLittleBound(s[1..]);
    }
  }

  /** A word that fits in `n` bytes survives the trip through its bytes. */
  lemma {:induction false} LittleRoundTrip(v: nat, n: nat)
    requires v < Pow256(n)
    ensures FromLittle(ToLittle(v, n)) == v
  {
    if n > 0 {
      LittleRoundTrip(v / 256, n - 1);
      assert ToLittle(v, n)[1..] == ToLittle(v / 256, n - 1);
    }
  }

  /** Bytes are recovered from the word they spell. */
  lemma {:induction false} LittleRoundTripBytes(s: seq<Byte>)
    ensures ToLittle(FromLittle(s), |s|) == s
  {
    if s != [] {
      LittleRoundTripBytes(s[1..]);
      var f := FromLittle(s[1..]);
      assert (s[0] + 256 * f) % 256 == s[0] && (s[0] + 256 * f) / 256 == f;
    }
  }

  lemma {:induction false} ZeroBytes(n: nat)
    ensures ToLittle(0, n) == Zeros(n)
  {
    if n > 0 {
      ZeroBytes(n - 1);
    }
  }

  lemma {:induction false} LittlePadding(s: seq<Byte>, k: nat)
    ensures FromLittle(s + Zeros(k)) == FromLittle(s)
    decreases |s|, k
  {
    if s != [] {
      LittlePadding(s[1..], k);
      assert (s + Zeros(k))[1..] == s[1..] + Zeros(k);
    } else if k > 0 {
      LittlePadding([], k - 1);
      assert (s + Zeros(k))[1..] == Zeros(k - 1) == [] + Zeros(k - 1);
    }
  }

  /** The low bytes of a word do not depend on how many are asked for. */
  lemma {:induction false} LittlePrefix(v: nat, n: nat, k: nat)
    requires k <= n
    ensures ToLittle(v, n)[..k] == ToLittle(v, k)
  {
    if k > 0 {
      LittlePrefix(v / 256, n - 1, k - 1);
      assert ToLittle(v, n)[..k] == [v % 256] + ToLittle(v / 256, n - 1)[..k - 1];
    }
  }

  /** The digit of `v` worth 256^i. */
  function Digit(v: nat, i: nat): Byte {
    v / Pow256(i) % 256
  }

  lemma QuotientOfQuotient(v: nat, m: nat)
    requires m > 0
    ensures v / 256 / m == v / (256 * m)
  {
    var a, b := v / 256, v / 256 / m;
    assert v == 256 * a + v % 256 && a == m * b + a % m;
    assert v == 256 * m * b + (256 * (a % m) + v % 256);
    QuotientIs(v, 256 * m, b, 256 * (a % m) + v % 256);
  }

  lemma {:induction false} Steps(d: nat, a: nat, b: nat)
    requires a < b
    ensures d * a + d <= d * b
  {
    assert d * b == d * (b - 1) + d;
    if a < b - 1 {
      Steps(d, a, b - 1);
    }
  }

  lemma QuotientIs(v: nat, d: nat, q: nat, r: nat)
    requires v == d * q + r && r < d
    ensures v / d == q
  {
    var k := v / d;
    if k < q {
      Steps(d, k, q);
    } else if k > q {
      Steps(d, q, k);
    }
  }

  lemma DigitShifts(v: nat, i: nat)
    ensures Digit(v, i + 1) == Digit(v / 256, i)
  {
    QuotientOfQuotient(v, Pow256(i));
  }

  lemma {:induction false} LittleDigit(v: nat, n: nat, i: nat)
    requires i < n
    ensures ToLittle(v, n)[i] == Digit(v, i)
  {
    if i == 0 {
      assert Pow256(0) == 1;
    } else {
      LittleDigit(v / 256, n - 1, i - 1);
      DigitShifts(v, i - 1);
    }
  }

  /** The bytes spell the number in that order, by place value: the last byte of a big-endian
      word counts ones, the one before it 256s, and so on. */
  predicate Spells(e: Endian, s: seq<Byte>, v: nat) {
    && v < Pow256(|s|)
    && forall i :: 0 <= i < |s| ==> s[i] == Digit(v, if e.Big? then |s| - 1 - i else i)
  }

  lemma WordSpells(e: Endian, v: nat, n: nat)
    requires v < Pow256(n)
    ensures Spells(e, ToBytes(e, v, n), v)
  {
    hide ToLittle, Pow256, Digit;
    forall i | 0 <= i < n ensures ToBytes(e, v, n)[i] == Digit(v, if e.Big? then n - 1 - i else i) {
      LittleDigit(v, n, if e.Big? then n - 1 - i else i);
    }
  }

  /** Reading bytes in an order gives the one number they spell. */
  lemma SpellsExactly(e: Endian, s: seq<Byte>, v: nat)
    ensures Spells(e, s, v) <==> FromBytes(e, s) == v
  {
    hide Digit, Pow256, ToBytes, FromBytes;
    if FromBytes(e, s) == v {
      FromBytesBound(e, s);
      WordBack(e, s);
      WordSpells(e, v, |s|);
    }
    if Spells(e, s, v) {
      WordSpells(e, v, |s|);
      assert s == ToBytes(e, v, |s|);
      BytesRoundTrip(e, v, |s|);
    }
  }

  lemma WordBack(e: Endian, s: seq<Byte>)
    ensures ToBytes(e, FromBytes(e, s), |s|) == s
  {
    LittleRoundTripBytes(if e.Little? then s else Reverse(s));
    ReverseTwice(s);
  }

  lemma ReverseTwice(s: seq<Byte>)
    ensures Reverse(Reverse(s)) == s
  {
  }

  lemma BytesRoundTrip(e: Endian, v: nat, n: nat)
    requires v < Pow256(n)
    ensures FromBytes(e, ToBytes(e, v, n)) == v
  {
    LittleRoundTrip(v, n);
    ReverseTwice(ToLittle(v, n));
  }

  lemma FromBytesBound(e: Endian, s: seq<Byte>)
    ensures FromBytes(e, s) < Pow256(|s|)
  {
    FromLittleBound(if e.Little? then s else Reverse(s));
  }

  /** Significant bytes placed where the byte order wants them in a zeroed word. */
  function Placed(e: Endian, s: seq<Byte>, width: nat): (m: seq<Byte>)
    requires |s| <= width
    ensures |m| == width
  {
    if e.Little? then s + Zeros(width - |s|) else Zeros(width - |s|) + s
  }

  /** A word read back from placed bytes has the value those bytes spell. */
  lemma PlacedValue(e: Endian, s: seq<Byte>, width: nat)
    requires |s| <= width
    ensures FromBytes(e, Placed(e, s, width)) == FromBytes(e, s)
  {
    var k := width - |s|;
    if e.Little? {
      LittlePadding(s, k);
    } else {
      assert Reverse(Zeros(k) + s) == Reverse(s) + Zeros(k);
      LittlePadding(Reverse(s), k);
    }
  }

  /** Reversing the bytes of a word exchanges the two byte orders. */
  lemma SwappedValue(e: Endian, f: Endian, s: seq<Byte>)
    requires e != f
    ensures FromBytes(e, Reverse(s)) == FromBytes(f, s)
  {
    ReverseTwice(s);
  }

  /** The significant bytes of a small word are the ones its byte order keeps. */
  lemma SignificantBytes(e: Endian, v: nat, width: nat, n: nat)
    requires n <= width
    ensures (if e.Little? then ToBytes(e, v, width)[..n] else ToBytes(e, v, width)[width - n..]) == ToBytes(e, v, n)
  {
    LittlePrefix(v, width, n);
    if e.Big? {
      var all := ToLittle(v, width);
      assert Reverse(all)[width - n..] == Reverse(all[..n]);
    }
  }
}
