/** A prefix table with a per-length index, and its longest-prefix match. */
module Ipv4PrefixMaps {
  import opened Bytes
  import opened Ipv4Prefixes

  /** The stored prefixes of one length. */
  function OfLength(keys: set<Prefix>, l: nat): set<Prefix> {
    set p | p in keys && p.length == l
  }

  /** The index counts the prefixes of each length, and has no entry at zero. */
  ghost predicate Indexed(keys: set<Prefix>, counters: map<nat, nat>) {
    && (forall l :: l in counters ==> counters[l] == |OfLength(keys, l)| && counters[l] > 0)
    && (forall l :: OfLength(keys, l) != {} ==> l in counters)
  }

  /** Mask lengths are at most 32. Prefixes read from a stream may have any bits set. */
  ghost predicate AllMasked(keys: set<Prefix>) {
    forall p :: p in keys ==> p.length <= 32
  }

  /** Every stored prefix containing the address: a scan of the whole table. */
  function Covering<T>(entries: map<Prefix, T>, a: Address): set<Prefix>
    requires AllMasked(entries.Keys)
  {
    set p | p in entries.Keys && p.Contains(a)
  }

  /** The longest match of section 5.2.4.3 of RFC 1812, by scanning the whole table. */
  ghost predicate IsLongestMatch<T>(entries: map<Prefix, T>, a: Address, p: Prefix)
    requires AllMasked(entries.Keys)
  {
    p in Covering(entries, a) && forall q :: q in Covering(entries, a) && q != p ==> q.length < p.length
  }

  lemma LongestMatchIsUnique<T>(entries: map<Prefix, T>, a: Address, p: Prefix, q: Prefix)
    requires AllMasked(entries.Keys)
    requires IsLongestMatch(entries, a, p) && IsLongestMatch(entries, a, q)
    ensures p == q
  {
  }

  lemma {:induction false} HasGreatest(s: set<nat>)
    requires s != {}
    ensures exists m :: m in s && forall x :: x in s ==> x <= m
  {
    var x :| x in s;
    if s != {x} {
      HasGreatest(s - {x});
      var m :| m in s - {x} && forall y :: y in s - {x} ==> y <= m;
      var g := if m < x then x else m;
      assert forall y :: y in s ==> y == x || y in s - {x};
      assert g in s && forall y :: y in s ==> y <= g;
    }
  }

  /** The members of `lengths`, greatest first: reverse iteration of the ordered index. */
  function Descending(lengths: set<nat>): (s: seq<nat>)
    ensures forall l :: l in s <==> l in lengths
    ensures forall i, j :: 0 <= i < j < |s| ==> s[i] > s[j]
  {
    if lengths == {} then
      []
    else
      HasGreatest(lengths);
      var m :| m in lengths && forall x :: x in lengths ==> x <= m;
      assert forall l :: l in lengths <==> l == m || l in lengths - {m};
      [m] + Descending(lengths - {m})
  }

  ghost predicate AtMost32(lengths: seq<nat>) {
    forall i :: 0 <= i < |lengths| ==> lengths[i] <= 32
  }

  ghost predicate Decreasing(lengths: seq<nat>) {
    forall i, j :: 0 <= i < j < |lengths| ==> lengths[i] > lengths[j]
  }

  /** The stored prefixes built from the address, length by length. */
  function MatchList<T>(entries: map<Prefix, T>, a: Address, lengths: seq<nat>): seq<(Prefix, T)>
    requires AtMost32(lengths)
  {
    if lengths == [] then
      []
    else
      var pfx := FromAddress(a, lengths[0]);
      (if pfx in entries then [(pfx, entries[pfx])] else []) + MatchList(entries, a, lengths[1..])
  }

  lemma MatchListStep<T>(entries: map<Prefix, T>, a: Address, lengths: seq<nat>, i: nat)
    requires i < |lengths|
    requires AtMost32(lengths)
    ensures var pfx := FromAddress(a, lengths[i]);
            var rest := MatchList(entries, a, lengths[i + 1..]);
            MatchList(entries, a, lengths[i..]) == if pfx in entries then [(pfx, entries[pfx])] + rest else rest
  {
    assert lengths[i..][1..] == lengths[i + 1..];
  }

  /** `values` lists each stored prefix that contains the address, whose length is among
      `lengths`, once, with its value, longest first, and nothing else. */
  ghost predicate Lists<T>(entries: map<Prefix, T>, a: Address, lengths: seq<nat>, values: seq<(Prefix, T)>)
    requires AllMasked(entries.Keys)
  {
    && (forall k :: 0 <= k < |values| ==>
          values[k].0 in Covering(entries, a) && values[k].1 == entries[values[k].0] && values[k].0.length in lengths)
    && (forall p :: p in Covering(entries, a) && p.length in lengths ==> Listed(p, values))
    && (forall j, k :: 0 <= j < k < |values| ==> values[j].0.length > values[k].0.length)
  }

  ghost predicate Listed<T>(p: Prefix, values: seq<(Prefix, T)>) {
    exists k :: 0 <= k < |values| && values[k].0 == p
  }

  lemma {:induction false} MatchListIsExact<T>(entries: map<Prefix, T>, a: Address, lengths: seq<nat>)
    requires AllMasked(entries.Keys)
    requires AtMost32(lengths)
    requires Decreasing(lengths)
    ensures Lists(entries, a, lengths, MatchList(entries, a, lengths))
  {
    if lengths != [] {
      var rest := MatchList(entries, a, lengths[1..]);
      MatchListIsExact(entries, a, lengths[1..]);
      assert forall l :: l in lengths <==> l == lengths[0] || l in lengths[1..];
      PrependMatch(entries, a, lengths[0], lengths[1..], rest);
      assert lengths == [lengths[0]] + lengths[1..];
    }
  }

  lemma PrependMatch<T>(entries: map<Prefix, T>, a: Address, l: nat, lengths: seq<nat>, rest: seq<(Prefix, T)>)
    requires AllMasked(entries.Keys) && l <= 32
    requires forall m :: m in lengths ==> l > m
    requires Lists(entries, a, lengths, rest)
    ensures var pfx := FromAddress(a, l);
            Lists(entries, a, [l] + lengths, (if pfx in entries then [(pfx, entries[pfx])] else []) + rest)
  {
    var pfx := FromAddress(a, l);
    FromAddressContains(a, l);
    var head := if pfx in entries then [(pfx, entries[pfx])] else [];
    var values := head + rest;
    forall p | p in Covering(entries, a) && p.length in [l] + lengths ensures Listed(p, values) {
      ContainsMeansFromAddress(p, a);
      if p.length == l {
        assert values[0].0 == p;
      } else {
        var k :| 0 <= k < |rest| && rest[k].0 == p;
        assert values[|head| + k].0 == p;
      }
    }
  }

  /** The head of a complete list is the longest match; there is one iff anything covers. */
  lemma FirstIsLongest<T>(entries: map<Prefix, T>, a: Address, values: seq<(Prefix, T)>)
    requires AllMasked(entries.Keys)
    requires forall k :: 0 <= k < |values| ==> values[k].0 in Covering(entries, a)
    requires forall p :: p in Covering(entries, a) ==> Listed(p, values)
    requires forall j, k :: 0 <= j < k < |values| ==> values[j].0.length > values[k].0.length
    ensures values == [] ==> Covering(entries, a) == {}
    ensures values != [] ==> values[0].0 in Covering(entries, a) && IsLongestMatch(entries, a, values[0].0)
  {
    if Covering(entries, a) != {} {
      var p :| p in Covering(entries, a);
      assert Listed(p, values);
    }
  }

  lemma AddToLength(keys: set<Prefix>, p: Prefix, l: nat)
    requires p !in keys
    ensures |OfLength(keys + {p}, l)| == |OfLength(keys, l)| + if l == p.length then 1 else 0
  {
    if l == p.length {
      assert OfLength(keys + {p}, l) == OfLength(keys, l) + {p};
    } else {
      assert OfLength(keys + {p}, l) == OfLength(keys, l);
    }
  }

  lemma RemoveFromLength(keys: set<Prefix>, p: Prefix, l: nat)
    requires p in keys
    ensures |OfLength(keys - {p}, l)| == |OfLength(keys, l)| - if l == p.length then 1 else 0
  {
    AddToLength(keys - {p}, p, l);
    assert keys - {p} + {p} == keys;
  }

  class Ipv4PrefixMap<T> {
    var entries: map<Prefix, T>
    var lengthCounters: map<nat, nat>

    ghost predicate Valid()
      reads this
    {
      AllMasked(entries.Keys) && Indexed(entries.Keys, lengthCounters)
    }

    constructor ()
      ensures Valid() && entries == map[]
    {
      entries, lengthCounters := map[], map[];
    }

    method Add(pfx: Prefix, value: T)
      requires Valid() && pfx.length <= 32
      modifies this
      ensures Valid() && entries == old(entries)[pfx := value]
      ensures pfx in old(entries) ==> lengthCounters == old(lengthCounters)
    {
      var inserted := pfx !in entries;
      ghost var keys := entries.Keys;
      entries := entries[pfx := value];
      assert entries.Keys == keys + {pfx};
      if inserted {
        var l := pfx.length;
        if l !in lengthCounters {
          lengthCounters := lengthCounters[l := 0];
          assert OfLength(keys, l) == {};
        }
        lengthCounters := lengthCounters[l := lengthCounters[l] + 1];
        forall m | m in lengthCounters ensures lengthCounters[m] == |OfLength(entries.Keys, m)| {
          AddToLength(keys, pfx, m);
        }
      } else {
        assert entries.Keys == keys;
      }
    }

    /** Erasing a stored prefix needs no test of the index: its length is always there. */
    method Remove(pfx: Prefix) returns (rc: bool)
      requires Valid()
      modifies this
      ensures Valid() && entries == old(entries) - {pfx}
      ensures rc <==> pfx in old(entries)
    {
      rc := false;
      if pfx in entries {
        ghost var keys := entries.Keys;
        entries := entries - {pfx};
        assert entries.Keys == keys - {pfx};
        var l := pfx.length;
        assert pfx in OfLength(keys, l);
        forall m | m in lengthCounters
          ensures |OfLength(entries.Keys, m)| == lengthCounters[m] - if m == l then 1 else 0
        {
          RemoveFromLength(keys, pfx, m);
        }
        lengthCounters := lengthCounters[l := lengthCounters[l] - 1];
        if lengthCounters[l] == 0 {
          lengthCounters := lengthCounters - {l};
          forall p | p in entries ensures p.length in lengthCounters {
            assert p in keys && (p.length == l ==> p in OfLength(entries.Keys, l));
          }
        }
        rc := true;
      }
    }

    method Find(pfx: Prefix) returns (value: Option<T>)
      ensures value == if pfx in entries then Some(entries[pfx]) else None
    {
      value := None;
      if pfx in entries {
        value := Some(entries[pfx]);
      }
    }

    /** The lengths in the index, longest first, reach every covering prefix. */
    lemma IndexReachesCovering(a: Address, lengths: seq<nat>)
      requires Valid()
      requires lengths == Descending(lengthCounters.Keys)
      ensures AtMost32(lengths) && Decreasing(lengths)
      ensures Lists(entries, a, lengths, MatchList(entries, a, lengths))
      ensures forall p :: p in Covering(entries, a) ==> Listed(p, MatchList(entries, a, lengths))
    {
      forall l | l in lengths ensures l <= 32 {
        var p :| p in OfLength(entries.Keys, l);
      }
      MatchListIsExact(entries, a, lengths);
      forall p | p in Covering(entries, a) ensures p.length in lengths {
        assert p in OfLength(entries.Keys, p.length);
      }
    }

    /** One working prefix is shortened along `order`, the lengths in reverse iteration
        of the index, until it is found. */
    method FindLongestNoLock(a: Address, order: seq<nat>) returns (value: Option<(Prefix, T)>)
      requires AtMost32(order) && Decreasing(order)
      ensures var all := MatchList(entries, a, order);
              value == if all == [] then None else Some(all[0])
    {
      value := None;
      var pfx := FromAddress(a, 32);
      var i := 0;
      while i < |order|
        invariant 0 <= i <= |order|
        invariant pfx == FromAddress(a, if i == 0 then 32 else order[i - 1])
        invariant MatchList(entries, a, order) == MatchList(entries, a, order[i..])
      {
        WithMaskLengthOfFromAddress(a, pfx.length, order[i]);
        pfx := pfx.WithMaskLength(order[i]);
        MatchListStep(entries, a, order, i);
        if pfx in entries {
          value := Some((pfx, entries[pfx]));
          return;
        }
        i := i + 1;
      }
    }

    method FindLongest(a: Address) returns (value: Option<(Prefix, T)>)
      requires Valid()
      ensures value.None? <==> Covering(entries, a) == {}
      ensures value.Some? ==> IsLongestMatch(entries, a, value.value.0) && value.value.1 == entries[value.value.0]
    {
      var order := Descending(lengthCounters.Keys);
      IndexReachesCovering(a, order);
      FirstIsLongest(entries, a, MatchList(entries, a, order));
      value := FindLongestNoLock(a, order);
    }

    /** A fresh prefix is built from the address for each length along `order`. */
    method FindMatchesNoLock(a: Address, order: seq<nat>) returns (rc: bool, values: seq<(Prefix, T)>)
      requires AtMost32(order)
      ensures values == MatchList(entries, a, order)
      ensures rc <==> values != []
    {
      values := [];
      var i := 0;
      while i < |order|
        invariant 0 <= i <= |order|
        invariant values + MatchList(entries, a, order[i..]) == MatchList(entries, a, order)
      {
        MatchListStep(entries, a, order, i);
        ghost var rest := MatchList(entries, a, order[i + 1..]);
        ghost var before := values;
        var pfx := FromAddress(a, order[i]);
        if pfx in entries {
          values := values + [(pfx, entries[pfx])];
          assert before + ([(pfx, entries[pfx])] + rest) == values + rest;
        }
        i := i + 1;
      }
      rc := values != [];
    }

    method FindMatches(a: Address) returns (rc: bool, values: seq<(Prefix, T)>)
      requires Valid()
      ensures rc <==> Covering(entries, a) != {}
      ensures Lists(entries, a, Descending(lengthCounters.Keys), values)
      ensures forall p :: p in Covering(entries, a) ==> Listed(p, values)
      ensures rc ==> values != [] && IsLongestMatch(entries, a, values[0].0)
    {
      var order := Descending(lengthCounters.Keys);
      IndexReachesCovering(a, order);
      FirstIsLongest(entries, a, MatchList(entries, a, order));
      rc, values := FindMatchesNoLock(a, order);
    }
  }
}
