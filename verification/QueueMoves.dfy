/** The statements that allocate, link, detach and delete nodes keep the invariant. */
module QueueMoves {
  import opened Bytes
  import opened ConcurrentQueue
  import opened QueueInvariant
  import opened QueueSteps

  /** What a statement of thread `t` leaves alone, apart from nodes and locals. */
  ghost predicate SameLocks<T>(s: State<T>, s': State<T>, t: nat) {
    && OnlyThread(s, s', t)
    && s'.pushing == s.pushing && s'.popping == s.popping
    && InPush(s'.threads[t].pc) == InPush(s.threads[t].pc)
    && InPop(s'.threads[t].pc) == InPop(s.threads[t].pc)
  }

  lemma SameLocksStayLocked<T>(s: State<T>, s': State<T>, t: nat)
    requires Locked(s) && SameLocks(s, s', t)
    ensures Locked(s')
  {
    LocksStay(s, s', t);
  }

  /** The nodes of every thread but `t` are as they were. */
  ghost predicate OthersSame<T>(s: State<T>, s': State<T>, t: nat) {
    forall u, x :: 0 <= u < |s.threads| && u != t && x in s.threads[u].own ==> Same(s.heap, s'.heap, x)
  }

  lemma OthersKeepLocal<T>(c: Config<T>, s: State<T>, s': State<T>, t: nat)
    requires Inv(c, s) && OnlyThread(s, s', t) && s'.chain != [] && OthersSame(s, s', t)
    requires s.popping == Some(t) || FrontKept(s.heap, s.chain, s'.heap, s'.chain)
    requires s.pushing == Some(t) || Last(s'.chain) == Last(s.chain)
    ensures forall u :: 0 <= u < |s.threads| && u != t ==> LocalOk(c, s'.threads[u], s'.heap, s'.chain)
  {
    forall u | 0 <= u < |s.threads| && u != t ensures LocalOk(c, s'.threads[u], s'.heap, s'.chain) {
      var th := s.threads[u];
      forall i {:trigger th.own[i]} | 0 <= i < |th.own| ensures Same(s.heap, s'.heap, th.own[i]) {
        assert th.own[i] in s.threads[u].own;
      }
      LocalFrame(c, th, s.heap, s.chain, s'.heap, s'.chain);
    }
  }

  /** The invariant from its parts, once a statement of thread `t` has kept each. */
  lemma Reassemble<T>(c: Config<T>, s: State<T>, s': State<T>, t: nat)
    requires Inv(c, s) && SameLocks(s, s', t) && OthersSame(s, s', t)
    requires Ownership(s') && Chained(s') && Fifo(s')
    requires s.popping == Some(t) || FrontKept(s.heap, s.chain, s'.heap, s'.chain)
    requires s.pushing == Some(t) || Last(s'.chain) == Last(s.chain)
    ensures LocalOk(c, s'.threads[t], s'.heap, s'.chain) ==> Inv(c, s')
  {
    SameLocksStayLocked(s, s', t);
    OthersKeepLocal(c, s, s', t);
  }

  /** A change to nodes that no other thread owns. */
  lemma MineOnly<T>(s: State<T>, s': State<T>, t: nat, x: Id)
    requires Ownership(s) && OnlyThread(s, s', t) && (x in s.threads[t].own || x in s.chain || x !in s.heap)
    requires forall y :: y in s.heap && y != x ==> Same(s.heap, s'.heap, y)
    ensures OthersSame(s, s', t)
  {
    forall u, y | 0 <= u < |s.threads| && u != t && y in s.threads[u].own ensures Same(s.heap, s'.heap, y) {
      OthersOwn(s, t, u, y);
    }
  }

  /** Nodes of other threads are neither this thread's nor in the queue. */
  lemma OthersOwn<T>(s: State<T>, t: nat, u: nat, x: Id)
    requires Ownership(s) && t < |s.threads| && u < |s.threads| && u != t && x in s.threads[u].own
    ensures x in s.heap && x !in s.threads[t].own && x !in s.chain
  {
    assert OwnsExactly(s.owner, s.threads[u].own, u);
    assert OwnsExactly(s.owner, s.threads[t].own, t);
  }

  lemma MineIsNotLinked<T>(s: State<T>, t: nat, x: Id)
    requires Ownership(s) && t < |s.threads| && x in s.threads[t].own
    ensures x in s.heap && x !in s.chain && s.owner[x] == Held(t)
  {
    assert OwnsExactly(s.owner, s.threads[t].own, t);
  }

  // Delete

  lemma ExceptOnce<X>(s: seq<X>, k: nat)
    requires k < |s| && Distinct(s)
    ensures Distinct(Except(s, k)) && s[k] !in Except(s, k)
    ensures forall x :: x in Except(s, k) <==> x in s && x != s[k]
  {
    forall x | x in s && x != s[k] ensures x in Except(s, k) {
      var i :| 0 <= i < |s| && s[i] == x;
      assert Except(s, k)[if i < k then i else i - 1] == x;
    }
  }

  lemma DeleteKeepsOwnership<T>(s: State<T>, t: nat, k: nat, pc: Pc<T>)
    requires Ownership(s) && t < |s.threads| && k < |s.threads[t].own|
    ensures Ownership(Delete(s, t, s.threads[t].own[k], k, pc))
  {
    var own := s.threads[t].own;
    var s' := Delete(s, t, own[k], k, pc);
    MineIsNotLinked(s, t, own[k]);
    assert OwnsExactly(s.owner, own, t);
    ExceptOnce(own, k);
    forall u | 0 <= u < |s'.threads| ensures OwnsExactly(s'.owner, s'.threads[u].own, u) {
      assert OwnsExactly(s.owner, s.threads[u].own, u);
    }
  }

  lemma DeleteKeepsQueue<T>(s: State<T>, t: nat, k: nat, pc: Pc<T>)
    requires Ownership(s) && Chained(s) && Fifo(s) && t < |s.threads| && k < |s.threads[t].own|
    requires !s.threads[t].pc.SwingBack?
    ensures var s' := Delete(s, t, s.threads[t].own[k], k, pc); Chained(s') && Fifo(s')
  {
    var x := s.threads[t].own[k];
    var s' := Delete(s, t, x, k, pc);
    MineIsNotLinked(s, t, x);
    PointsToFrame(s.heap, s'.heap, s.chain, None);
    HoldsFrame(s.heap, s'.heap, s.chain[1..], s.pushed[|s.popped|..]);
  }

  lemma DeleteFrame<T>(s: State<T>, t: nat, k: nat, pc: Pc<T>)
    requires Ownership(s) && Chained(s) && t < |s.threads| && k < |s.threads[t].own|
    requires !InPush(s.threads[t].pc) && !InPop(s.threads[t].pc) && !InPush(pc) && !InPop(pc)
    ensures var s' := Delete(s, t, s.threads[t].own[k], k, pc);
            FrontKept(s.heap, s.chain, s'.heap, s'.chain) && OthersSame(s, s', t) && SameLocks(s, s', t)
  {
    var x := s.threads[t].own[k];
    MineIsNotLinked(s, t, x);
    FrontIsLive(s);
    MineOnly(s, Delete(s, t, x, k, pc), t, x);
  }

  lemma DeleteKeepsInv<T>(c: Config<T>, s: State<T>, t: nat, k: nat, pc: Pc<T>)
    requires Inv(c, s) && t < |s.threads| && k < |s.threads[t].own|
    requires !InPush(s.threads[t].pc) && !InPop(s.threads[t].pc) && !InPush(pc) && !InPop(pc)
    ensures var th := s.threads[t];
            LocalOk(c, Thread(pc, Except(th.own, k), th.got), s.heap - {th.own[k]}, s.chain)
            ==> Inv(c, Delete(s, t, th.own[k], k, pc))
  {
    DeleteFrame(s, t, k, pc);
    DeleteKeepsOwnership(s, t, k, pc);
    DeleteKeepsQueue(s, t, k, pc);
    Reassemble(c, s, Delete(s, t, s.threads[t].own[k], k, pc), t);
  }

  // Detach

  lemma TailKeepsOthers<X>(s: seq<X>)
    requires s != [] && Distinct(s)
    ensures Distinct(Tail(s)) && s[0] !in Tail(s)
    ensures forall x :: x in Tail(s) <==> x in s && x != s[0]
  {
    forall x | x in s && x != s[0] ensures x in Tail(s) {
      var i :| 0 <= i < |s| && s[i] == x;
      assert Tail(s)[i - 1] == x;
    }
  }

  /** The node the front leaves behind goes to thread `t`. */
  lemma OwnsOneMore(owner: map<Id, Owner>, own: seq<Id>, t: nat, x: Id)
    requires OwnsExactly(owner, own, t) && x in owner && owner[x] == InQueue
    ensures OwnsExactly(owner[x := Held(t)], own + [x], t)
  {
    assert x !in own;
    assert (own + [x])[|own|] == x;
  }

  lemma OwnsAsBefore(owner: map<Id, Owner>, own: seq<Id>, t: nat, u: nat, x: Id)
    requires OwnsExactly(owner, own, u) && x in owner && owner[x] == InQueue && t != u
    ensures OwnsExactly(owner[x := Held(t)], own, u)
  {
  }

  lemma DetachKeepsOwnership<T>(s: State<T>, t: nat, pc: Pc<T>)
    requires Ownership(s) && Chained(s) && |s.chain| >= 2 && t < |s.threads|
    requires HasNext(s.heap, s.front) && s.heap[s.front].next.value in s.heap
    ensures Ownership(Detach(s, t, pc))
  {
    hide OwnsExactly, PointsTo, Distinct;
    var s' := Detach(s, t, pc);
    TailKeepsOthers(s.chain);
    assert s.owner[s.chain[0]] == InQueue;
    forall u | 0 <= u < |s'.threads| ensures OwnsExactly(s'.owner, s'.threads[u].own, u) {
      if u == t {
        OwnsOneMore(s.owner, s.threads[t].own, t, s.front);
      } else {
        OwnsAsBefore(s.owner, s.threads[u].own, t, u, s.front);
      }
    }
  }

  lemma PointsToTail<T>(heap: map<Id, Node<T>>, ids: seq<Id>, end: Option<Id>)
    requires PointsTo(heap, ids, end) && ids != []
    ensures PointsTo(heap, ids[1..], end)
  {
    forall i | 0 <= i < |ids[1..]| ensures heap[ids[1..][i]].next == Successor(ids[1..], i, end) {
      assert heap[ids[i + 1]].next == Successor(ids, i + 1, end);
    }
  }

  lemma HoldsTail<T>(heap: map<Id, Node<T>>, ids: seq<Id>, vals: seq<T>)
    requires Holds(heap, ids, vals) && ids != []
    ensures Holds(heap, ids[1..], vals[1..])
  {
    forall i | 0 <= i < |ids[1..]| ensures heap[ids[1..][i]].value == vals[1..][i] {
      assert heap[ids[i + 1]].value == vals[i + 1];
    }
  }

  /** The node after the front holds the oldest value not popped. */
  lemma NextIsOldest<T>(s: State<T>)
    requires Chained(s) && Fifo(s) && |s.chain| >= 2
    ensures s.chain[1] in s.heap && |s.popped| < |s.pushed| && s.heap[s.chain[1]].value == s.pushed[|s.popped|]
  {
    assert s.chain[1..][0] == s.chain[1];
  }

  lemma DetachKeepsQueue<T>(s: State<T>, t: nat, pc: Pc<T>)
    requires Chained(s) && Fifo(s) && |s.chain| >= 2 && t < |s.threads|
    requires HasNext(s.heap, s.front) && s.heap[s.front].next.value in s.heap
    requires !s.threads[t].pc.SwingBack?
    ensures var s' := Detach(s, t, pc); Chained(s') && Fifo(s')
    ensures s.heap[s.front].next == Some(s.chain[1])
  {
    var s' := Detach(s, t, pc);
    FrontIsLive(s);
    NextIsOldest(s);
    PointsToTail(s.heap, s.chain, None);
    HoldsTail(s.heap, s.chain[1..], s.pushed[|s.popped|..]);
    assert s.pushed[|s.popped|..][1..] == s'.pushed[|s'.popped|..];
  }

  lemma DetachKeepsInv<T>(c: Config<T>, s: State<T>, t: nat, pc: Pc<T>)
    requires Inv(c, s) && t < |s.threads| && |s.chain| >= 2
    requires HasNext(s.heap, s.front) && s.heap[s.front].next.value in s.heap
    requires s.popping == Some(t) && InPop(s.threads[t].pc) && !InPush(s.threads[t].pc) && InPop(pc) && !InPush(pc)
    ensures var th := s.threads[t];
            s.chain[1] in s.heap
            && (LocalOk(c, Thread(pc, th.own + [s.front], th.got + [s.heap[s.chain[1]].value]), s.heap, s.chain[1..])
                ==> Inv(c, Detach(s, t, pc)))
  {
    var s' := Detach(s, t, pc);
    DetachKeepsOwnership(s, t, pc);
    DetachKeepsQueue(s, t, pc);
    MineOnly(s, s', t, s.front);
    Reassemble(c, s, s', t);
  }

  // Alloc

  lemma AllocKeepsOwnership<T>(s: State<T>, t: nat, vals: seq<T>, id: Id)
    requires Ownership(s) && t < |s.threads| && |s.threads[t].own| < |vals| && id !in s.heap
    ensures Ownership(DoAlloc(s, t, vals, id))
  {
    var s' := DoAlloc(s, t, vals, id);
    forall u | 0 <= u < |s'.threads| ensures OwnsExactly(s'.owner, s'.threads[u].own, u) {
      assert OwnsExactly(s.owner, s.threads[u].own, u);
    }
  }

  lemma AllocKeepsQueue<T>(s: State<T>, t: nat, vals: seq<T>, id: Id)
    requires Chained(s) && Fifo(s) && t < |s.threads| && |s.threads[t].own| < |vals| && id !in s.heap
    requires !s.threads[t].pc.SwingBack?
    ensures var s' := DoAlloc(s, t, vals, id); Chained(s') && Fifo(s')
  {
    var s' := DoAlloc(s, t, vals, id);
    PointsToFrame(s.heap, s'.heap, s.chain, None);
    HoldsFrame(s.heap, s'.heap, s.chain[1..], s.pushed[|s.popped|..]);
  }

  lemma AllocFrame<T>(s: State<T>, t: nat, vals: seq<T>, id: Id)
    requires Ownership(s) && Chained(s) && t < |s.threads| && |s.threads[t].own| < |vals| && id !in s.heap
    requires s.threads[t].pc.Alloc?
    ensures var s' := DoAlloc(s, t, vals, id);
            FrontKept(s.heap, s.chain, s'.heap, s'.chain) && OthersSame(s, s', t) && SameLocks(s, s', t)
  {
    FrontIsLive(s);
    MineOnly(s, DoAlloc(s, t, vals, id), t, id);
  }

  lemma AllocKeepsInv<T>(c: Config<T>, s: State<T>, t: nat, vals: seq<T>, id: Id)
    requires Inv(c, s) && t < |s.threads| && |s.threads[t].own| < |vals| && id !in s.heap
    requires s.threads[t].pc.Alloc?
    ensures var s' := DoAlloc(s, t, vals, id);
            LocalOk(c, s'.threads[t], s'.heap, s.chain) ==> Inv(c, s')
  {
    AllocFrame(s, t, vals, id);
    AllocKeepsOwnership(s, t, vals, id);
    AllocKeepsQueue(s, t, vals, id);
    Reassemble(c, s, DoAlloc(s, t, vals, id), t);
  }

  // Tie

  lemma TieKeepsOwnership<T>(s: State<T>, t: nat, vals: seq<T>)
    requires Ownership(s) && t < |s.threads| && |s.threads[t].own| >= 2
    requires s.threads[t].own[|s.threads[t].own| - 2] in s.heap
    ensures Ownership(DoTie(s, t, vals))
  {
    var s' := DoTie(s, t, vals);
    forall u | 0 <= u < |s'.threads| ensures OwnsExactly(s'.owner, s'.threads[u].own, u) {
      assert OwnsExactly(s.owner, s.threads[u].own, u);
    }
  }

  lemma TieKeepsQueue<T>(s: State<T>, t: nat, vals: seq<T>)
    requires Ownership(s) && Chained(s) && Fifo(s) && t < |s.threads| && |s.threads[t].own| >= 2
    requires s.threads[t].own[|s.threads[t].own| - 2] in s.heap
    requires !s.threads[t].pc.SwingBack?
    ensures var s' := DoTie(s, t, vals); Chained(s') && Fifo(s')
  {
    var s' := DoTie(s, t, vals);
    MineIsNotLinked(s, t, s.threads[t].own[|s.threads[t].own| - 2]);
    PointsToFrame(s.heap, s'.heap, s.chain, None);
    HoldsFrame(s.heap, s'.heap, s.chain[1..], s.pushed[|s.popped|..]);
  }

  lemma TieFrame<T>(s: State<T>, t: nat, vals: seq<T>)
    requires Ownership(s) && Chained(s) && t < |s.threads| && |s.threads[t].own| >= 2
    requires s.threads[t].own[|s.threads[t].own| - 2] in s.heap
    requires s.threads[t].pc.Tie?
    ensures var s' := DoTie(s, t, vals);
            FrontKept(s.heap, s.chain, s'.heap, s'.chain) && OthersSame(s, s', t) && SameLocks(s, s', t)
  {
    var x := s.threads[t].own[|s.threads[t].own| - 2];
    MineIsNotLinked(s, t, x);
    FrontIsLive(s);
    MineOnly(s, DoTie(s, t, vals), t, x);
  }

  lemma TieKeepsInv<T>(c: Config<T>, s: State<T>, t: nat, vals: seq<T>)
    requires Inv(c, s) && t < |s.threads| && |s.threads[t].own| >= 2
    requires s.threads[t].own[|s.threads[t].own| - 2] in s.heap
    requires s.threads[t].pc.Tie?
    ensures var s' := DoTie(s, t, vals);
            LocalOk(c, s'.threads[t], s'.heap, s.chain) ==> Inv(c, s')
  {
    TieFrame(s, t, vals);
    TieKeepsOwnership(s, t, vals);
    TieKeepsQueue(s, t, vals);
    Reassemble(c, s, DoTie(s, t, vals), t);
  }

  // Link

  lemma DistinctConcat<X>(a: seq<X>, b: seq<X>)
    requires Distinct(a) && Distinct(b) && forall x :: x in b ==> x !in a
    ensures Distinct(a + b)
  {
    forall i, j | 0 <= i < j < |a + b| ensures (a + b)[i] != (a + b)[j] {
      if i < |a| <= j {
        assert b[j - |a|] in b && a[i] in a;
      }
    }
  }

  lemma LinkKeepsOwnership<T>(s: State<T>, t: nat, vals: seq<T>)
    requires Ownership(s) && t < |s.threads| && s.threads[t].own != [] && s.back in s.heap
    ensures Ownership(DoLink(s, t, vals))
  {
    var own := s.threads[t].own;
    var s' := DoLink(s, t, vals);
    assert OwnsExactly(s.owner, own, t);
    DistinctConcat(s.chain, own);
    forall i | 0 <= i < |s'.chain| ensures s'.chain[i] in s'.owner && s'.owner[s'.chain[i]] == InQueue {
      if i < |s.chain| {
        assert s'.chain[i] == s.chain[i] && s.owner[s.chain[i]] == InQueue;
      } else {
        assert s'.chain[i] == own[i - |s.chain|];
      }
    }
    forall u | 0 <= u < |s'.threads| ensures OwnsExactly(s'.owner, s'.threads[u].own, u) {
      assert OwnsExactly(s.owner, s.threads[u].own, u);
    }
  }

  lemma PointsToConcat<T>(heap: map<Id, Node<T>>, a: seq<Id>, b: seq<Id>, end: Option<Id>)
    requires a != [] && b != [] && PointsTo(heap, a, None) && PointsTo(heap, b, end)
    requires Distinct(a) && forall x :: x in b ==> x !in a
    ensures PointsTo(SetNext(heap, Last(a), b[0]), a + b, end)
  {
    var heap' := SetNext(heap, Last(a), b[0]);
    forall i | 0 <= i < |a + b| ensures heap'[(a + b)[i]].next == Successor(a + b, i, end) {
      if i < |a| - 1 {
        assert heap[a[i]].next == Successor(a, i, None);
      } else if i >= |a| {
        assert b[i - |a|] in b;
        assert heap[b[i - |a|]].next == Successor(b, i - |a|, end);
      }
    }
  }

  lemma HoldsConcat<T>(heap: map<Id, Node<T>>, a: seq<Id>, b: seq<Id>, x: seq<T>, y: seq<T>)
    requires Holds(heap, a, x) && Holds(heap, b, y)
    ensures Holds(heap, a + b, x + y)
  {
  }

  /** Changing a successor changes no value. */
  lemma HoldsAfterSetNext<T>(heap: map<Id, Node<T>>, x: Id, y: Id, ids: seq<Id>, vals: seq<T>)
    requires x in heap && Holds(heap, ids, vals)
    ensures Holds(SetNext(heap, x, y), ids, vals)
  {
  }

  lemma LinkKeepsChained<T>(s: State<T>, t: nat, vals: seq<T>)
    requires Ownership(s) && Chained(s) && t < |s.threads| && s.threads[t].own != []
    requires PointsTo(s.heap, s.threads[t].own, None)
    requires s.back == Last(s.chain) && s.back in s.heap && s.pushing == Some(t)
    ensures Chained(DoLink(s, t, vals))
  {
    forall x | x in s.threads[t].own ensures x !in s.chain {
      MineIsNotLinked(s, t, x);
    }
    PointsToConcat(s.heap, s.chain, s.threads[t].own, None);
  }

  lemma LinkKeepsFifo<T>(s: State<T>, t: nat, vals: seq<T>)
    requires Fifo(s) && t < |s.threads| && s.threads[t].own != [] && s.back in s.heap
    requires Holds(s.heap, s.threads[t].own, vals)
    ensures Fifo(DoLink(s, t, vals))
  {
    var own := s.threads[t].own;
    var s' := DoLink(s, t, vals);
    HoldsConcat(s.heap, s.chain[1..], own, s.pushed[|s.popped|..], vals);
    HoldsAfterSetNext(s.heap, s.back, own[0], s.chain[1..] + own, s.pushed[|s.popped|..] + vals);
    assert s'.chain[1..] == s.chain[1..] + own;
    assert s'.pushed[|s'.popped|..] == s.pushed[|s.popped|..] + vals;
  }

  lemma LinkFrame<T>(s: State<T>, t: nat, vals: seq<T>)
    requires Ownership(s) && Chained(s) && t < |s.threads| && s.threads[t].own != []
    requires s.back == Last(s.chain) && s.back in s.heap && s.threads[t].pc.Link?
    ensures var s' := DoLink(s, t, vals);
            && s'.threads[t] == Thread(SwingBack(Last(s'.chain), |s.threads[t].own|), [], [])
            && FrontKept(s.heap, s.chain, s'.heap, s'.chain)
            && OthersSame(s, s', t) && SameLocks(s, s', t)
  {
    FrontIsLive(s);
    MineOnly(s, DoLink(s, t, vals), t, s.back);
  }

  lemma LinkIsReady<T>(c: Config<T>, th: Thread<T>, heap: map<Id, Node<T>>, chain: seq<Id>)
    requires chain != [] && th.pc.Link? && LocalOk(c, th, heap, chain)
    ensures th.own != [] && PointsTo(heap, th.own, None) && Holds(heap, th.own, th.pc.vals)
  {
    assert Slice(th.pc.vals, 0, |th.pc.vals|) == th.pc.vals;
  }

  lemma PusherKnowsBack<T>(s: State<T>, t: nat)
    requires Chained(s) && Locked(s) && t < |s.threads| && s.threads[t].pc.Link?
    ensures s.back == Last(s.chain) && s.back in s.heap && s.pushing == Some(t)
  {
  }

  lemma SwingBackLocal<T>(c: Config<T>, n: nat, heap: map<Id, Node<T>>, chain: seq<Id>)
    requires chain != [] && n > 0
    ensures LocalOk(c, Thread(SwingBack(Last(chain), n), [], []), heap, chain)
  {
  }

  lemma LinkKeepsInv<T>(c: Config<T>, s: State<T>, t: nat)
    requires Inv(c, s) && t < |s.threads| && s.threads[t].pc.Link?
    ensures s.threads[t].own != [] && s.back in s.heap && Inv(c, DoLink(s, t, s.threads[t].pc.vals))
  {
    var vals := s.threads[t].pc.vals;
    PusherKnowsBack(s, t);
    LinkIsReady(c, s.threads[t], s.heap, s.chain);
    LinkKeepsOwnership(s, t, vals);
    LinkKeepsChained(s, t, vals);
    LinkKeepsFifo(s, t, vals);
    LinkFrame(s, t, vals);
    var s' := DoLink(s, t, vals);
    SwingBackLocal(c, |s.threads[t].own|, s'.heap, s'.chain);
    Reassemble(c, s, s', t);
  }
}
