/** IPv4 addresses and prefixes, bit by bit, most significant bit first. */
module Ipv4Prefixes {

  type Address = a: seq<bool> | |a| == 32 witness seq(32, i => false)

  /** The netmask of `n` leading one bits. */
  function Netmask(n: nat): Address {
    seq(32, i => i < n)
  }

  function And(a: Address, b: Address): Address {
    seq(32, i requires 0 <= i < 32 => a[i] && b[i])
  }

  /** A network and a mask length. */
  datatype Prefix = Prefix(network: Address, length: nat) {
    /** What setting a prefix leaves behind: no bit beyond the mask is one. */
    predicate Canonical() {
      length <= 32 && forall i :: length <= i < 32 ==> !network[i]
    }

    predicate Contains(a: Address) {
      And(a, Netmask(length)) == network
    }

    /** Changing the mask length in place: shortening clears bits, lengthening does not,
        and lengths above 32 are ignored. */
    function WithMaskLength(n: nat): Prefix {
      if n < length then
        Prefix(if n == 0 then Netmask(0) else And(network, Netmask(n)), n)
      else if n < 33 then
        Prefix(network, n)
      else
        this
    }
  }

  /** The prefix built from an address and a mask length. */
  function FromAddress(a: Address, n: nat): (p: Prefix)
    requires n <= 32
    ensures p.length == n
  {
    Prefix(And(a, Netmask(n)), n)
  }

  lemma FromAddressContains(a: Address, n: nat)
    requires n <= 32
    ensures FromAddress(a, n).Canonical() && FromAddress(a, n).Contains(a)
  {
  }

  /** Changing the mask length leaves no bit set beyond it. */
  lemma WithMaskLengthIsCanonical(p: Prefix, n: nat)
    requires p.Canonical()
    ensures p.WithMaskLength(n).Canonical()
    ensures n <= 32 ==> p.WithMaskLength(n).length == n
  {
    if n < p.length {
      assert forall i :: n <= i < 32 ==> !p.WithMaskLength(n).network[i];
    }
  }

  /** Bit by bit: shortening clears the bits beyond the new mask, lengthening changes none,
      and a length above 32 changes nothing. */
  lemma WithMaskLengthBits(p: Prefix, n: nat, i: nat)
    requires p.length <= 32 && i < 32
    ensures p.WithMaskLength(n).length == if n <= 32 then n else p.length
    ensures p.WithMaskLength(n).network[i] <==> p.network[i] && (i < n || p.length <= n)
  {
  }

  /** Containment is agreement on the leading bits, for a prefix with no bit beyond its
      mask; a prefix with such a bit contains nothing. */
  lemma ContainsMeansLeadingBits(p: Prefix, a: Address)
    requires p.length <= 32
    ensures p.Contains(a) <==> p.Canonical() && forall i :: 0 <= i < p.length ==> a[i] == p.network[i]
  {
    if !p.Canonical() {
      var i :| p.length <= i < 32 && p.network[i];
      assert !And(a, Netmask(p.length))[i];
    } else if forall i :: 0 <= i < p.length ==> a[i] == p.network[i] {
      assert And(a, Netmask(p.length)) == p.network;
    } else {
      var i :| 0 <= i < p.length && a[i] != p.network[i];
      assert And(a, Netmask(p.length))[i] != p.network[i];
    }
  }

  /** Shortening the mask of one working prefix step by step gives, at each length, the
      same prefix as building it from the address. */
  lemma WithMaskLengthOfFromAddress(a: Address, m: nat, n: nat)
    requires n <= m <= 32
    ensures FromAddress(a, m).WithMaskLength(n) == FromAddress(a, n)
  {
    var shortened := FromAddress(a, m).WithMaskLength(n).network;
    assert forall i :: 0 <= i < 32 ==> shortened[i] == (a[i] && i < n);
    assert shortened == And(a, Netmask(n));
  }

  /** A stored prefix contains an address when it is the one built from the address. */
  lemma ContainsMeansFromAddress(p: Prefix, a: Address)
    requires p.length <= 32
    ensures p.Contains(a) <==> p == FromAddress(a, p.length)
  {
  }
}
