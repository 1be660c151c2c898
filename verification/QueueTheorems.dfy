/** What holds in every state the queue can reach, under any schedule of any number of
    threads making any calls. */
module QueueTheorems {
  import opened Bytes
  import opened ConcurrentQueue
  import opened QueueInvariant
  import opened QueueSteps
  import opened QueueRuns
  import opened QueueLength

  ghost predicate Good<T>(c: Config<T>, s: State<T>) {
    Inv(c, s) && Counted(s) && Runs(s)
  }

  lemma {:induction false} TotalsAtRest<T>(threads: seq<Thread<T>>)
    requires forall t :: 0 <= t < |threads| ==> TallyOf(threads[t].pc) == Tally(0, 0, 0)
    ensures Totals(threads) == Tally(0, 0, 0)
  {
    if threads != [] {
      TotalsAtRest(threads[1..]);
    }
  }

  lemma InitIsGood<T>(c: Config<T>, dummy: Id, threads: nat)
    ensures Good(c, Init(c, dummy, threads)) && Bounded(c, Init(c, dummy, threads))
  {
    InitKeepsInv(c, dummy, threads);
    TotalsAtRest(Init(c, dummy, threads).threads);
    assert RunsAt(Init(c, dummy, threads), seq(threads, i => 0));
  }

  lemma StepKeepsGood<T>(c: Config<T>, s: State<T>, t: nat, choice: Choice<T>)
    requires Good(c, s) && t < |s.threads| && Enabled(c, s, t, choice) && Safe(c, s, t)
    ensures Good(c, Step(c, s, t, choice)) && s.popped <= Step(c, s, t, choice).popped
  {
    var s' := Step(c, s, t, choice);
    StepKeepsInv(c, s, t, choice);
    StepAccounts(c, s, t, choice);
    KeepsCounted(c, s, s', t);
    StepTakes(c, s, t, choice);
    KeepsRuns(s, s', t);
  }

  lemma {:induction false} RunKeepsGood<T>(c: Config<T>, s: State<T>, schedule: seq<(nat, Choice<T>)>, r: State<T>)
    requires Good(c, s) && Reaches(c, s, schedule, r)
    ensures Good(c, r) && |r.threads| == |s.threads| && s.popped <= r.popped
    ensures Bounded(c, s) && Bound(c, |s.threads|) < TWO_TO_64 ==> Bounded(c, r)
    decreases |schedule|
  {
    if schedule != [] {
      var (t, choice) := schedule[0];
      var s' := Step(c, s, t, choice);
      StepKeepsGood(c, s, t, choice);
      if Bounded(c, s) && Bound(c, |s.threads|) < TWO_TO_64 {
        StepAccounts(c, s, t, choice);
        KeepsBounded(c, s, s', t);
      }
      RunKeepsGood(c, s', schedule[1..], r);
    }
  }

  /** A state some schedule reaches from the constructed queue. */
  ghost predicate Reachable<T(!new)>(c: Config<T>, threads: nat, s: State<T>) {
    exists dummy: Id, schedule: seq<(nat, Choice<T>)> :: Reaches(c, Init(c, dummy, threads), schedule, s)
  }

  lemma ReachableIsGood<T(!new)>(c: Config<T>, threads: nat, s: State<T>)
    requires Reachable(c, threads, s)
    ensures Good(c, s) && |s.threads| == threads
    ensures Bound(c, threads) < TWO_TO_64 ==> Bounded(c, s)
  {
    var dummy: Id, schedule: seq<(nat, Choice<T>)> :| Reaches(c, Init(c, dummy, threads), schedule, s);
    InitIsGood(c, dummy, threads);
    RunKeepsGood(c, Init(c, dummy, threads), schedule, s);
  }

  /** No thread ever follows a dangling or null pointer, deletes a node that is not live,
      or indexes past its vector, whatever it is about to do. */
  lemma EveryStatementIsSafe<T(!new)>(c: Config<T>, threads: nat, s: State<T>, t: nat)
    requires Reachable(c, threads, s) && t < threads
    ensures |s.threads| == threads && Safe(c, s, t)
  {
    ReachableIsGood(c, threads, s);
    InvImpliesSafe(c, s, t);
  }

  /** Where a live node is: in the queue, or in the hands of one thread. */
  ghost predicate OwnedBy<T>(s: State<T>, x: Id, o: Owner) {
    match o
    case InQueue => x in s.chain
    case Held(t) => t < |s.threads| && x in s.threads[t].own
  }

  /** Live nodes are split between the chain from the front and the threads' private
      segments, each node in one place and listed there once. None has leaked, and
      nothing any of them lists has been freed. */
  lemma LiveNodesHaveOneOwner<T(!new)>(c: Config<T>, threads: nat, s: State<T>)
    requires Reachable(c, threads, s)
    ensures forall x :: x in s.heap <==> exists o :: OwnedBy(s, x, o)
    ensures forall x, o, o' :: OwnedBy(s, x, o) && OwnedBy(s, x, o') ==> o == o'
    ensures Distinct(s.chain) && forall t :: 0 <= t < |s.threads| ==> Distinct(s.threads[t].own)
  {
    ReachableIsGood(c, threads, s);
    forall x, o | OwnedBy(s, x, o) ensures x in s.owner && s.owner[x] == o {
      if o.Held? {
        assert OwnsExactly(s.owner, s.threads[o.t].own, o.t);
      }
    }
    forall x | x in s.owner ensures OwnedBy(s, x, s.owner[x]) {
      if s.owner[x].Held? {
        assert OwnsExactly(s.owner, s.threads[s.owner[x].t].own, s.owner[x].t);
      }
    }
    forall t | 0 <= t < |s.threads| ensures Distinct(s.threads[t].own) {
      assert OwnsExactly(s.owner, s.threads[t].own, t);
    }
  }

  /** `_back` names the last node of a null-terminated chain from `_front`, except while
      the producer that holds the push lock is between linking and moving it. */
  lemma BackIsLast<T(!new)>(c: Config<T>, threads: nat, s: State<T>)
    requires Reachable(c, threads, s)
    ensures s.chain != [] && s.front == s.chain[0] && PointsTo(s.heap, s.chain, None)
    ensures s.back == Last(s.chain)
            || (exists t :: 0 <= t < |s.threads| && s.threads[t].pc.SwingBack? && s.pushing == Some(t))
  {
    ReachableIsGood(c, threads, s);
    if s.back != Last(s.chain) {
      assert s.threads[s.pushing.value].pc.SwingBack?;
    }
  }

  /** At most one thread is in each critical section. */
  lemma LocksExclude<T(!new)>(c: Config<T>, threads: nat, s: State<T>, t: nat, u: nat)
    requires Reachable(c, threads, s) && t < u < threads
    ensures |s.threads| == threads
    ensures !(InPush(s.threads[t].pc) && InPush(s.threads[u].pc))
    ensures !(InPop(s.threads[t].pc) && InPop(s.threads[u].pc))
  {
    ReachableIsGood(c, threads, s);
  }

  /** The values of the nodes linked behind the dummy. */
  function ValuesOn<T>(heap: map<Id, Node<T>>, ids: seq<Id>): seq<T>
    requires forall i :: 0 <= i < |ids| ==> ids[i] in heap
  {
    seq(|ids|, i requires 0 <= i < |ids| => heap[ids[i]].value)
  }

  lemma FifoMeans<T>(s: State<T>)
    requires Fifo(s)
    ensures s.popped + ValuesOn(s.heap, s.chain[1..]) == s.pushed
  {
    assert ValuesOn(s.heap, s.chain[1..]) == s.pushed[|s.popped|..];
  }

  /** First in, first out: the values removed, in order, and then the values still linked
      are the values pushed, in the order in which they were linked. */
  lemma FirstInFirstOut<T(!new)>(c: Config<T>, threads: nat, s: State<T>)
    requires Reachable(c, threads, s)
    ensures s.chain != [] && forall i :: 0 <= i < |s.chain[1..]| ==> s.chain[1..][i] in s.heap
    ensures s.popped + ValuesOn(s.heap, s.chain[1..]) == s.pushed
  {
    ReachableIsGood(c, threads, s);
    FifoMeans(s);
  }

  lemma HolderTakesTheLatest<T>(s: State<T>, t: nat)
    requires Runs(s) && s.popping == Some(t) && t < |s.threads|
    ensures EndsWith(s.popped, s.threads[t].got)
  {
    var at :| RunsAt(s, at);
    assert RunAt(s.popped, at[t], s.threads[t].got);
  }

  /** Until it gives up the lock, a pop holds the latest of all values popped. */
  lemma PopTakesTheLatest<T(!new)>(c: Config<T>, threads: nat, s: State<T>, t: nat)
    requires Reachable(c, threads, s) && t < threads
    ensures |s.threads| == threads
    ensures InPop(s.threads[t].pc) ==> EndsWith(s.popped, s.threads[t].got)
  {
    hide Reachable, EndsWith, Runs;
    ReachableIsGood(c, threads, s);
    if InPop(s.threads[t].pc) {
      HolderTakesTheLatest(s, t);
    }
  }

  /** What each thread's pop has removed, from then until its next call and after the lock
      is long released, is a run of consecutive popped values, and no two of these runs
      share a position. */
  lemma PopsTakeTurns<T(!new)>(c: Config<T>, threads: nat, s: State<T>) returns (at: seq<nat>)
    requires Reachable(c, threads, s)
    ensures |at| == |s.threads| == threads
    ensures forall t :: 0 <= t < threads ==>
              && at[t] + |s.threads[t].got| <= |s.popped|
              && s.popped[at[t]..at[t] + |s.threads[t].got|] == s.threads[t].got
    ensures forall t, u :: 0 <= t < u < threads ==> Apart(at[t], |s.threads[t].got|, at[u], |s.threads[u].got|)
  {
    ReachableIsGood(c, threads, s);
    at :| RunsAt(s, at);
    assert forall t :: 0 <= t < threads ==> RunAt(s.popped, at[t], s.threads[t].got);
  }

  /** What has been popped keeps its position, so that a pop's run is apart from those of
      all later pops as well. */
  lemma HistoryStays<T(!new)>(c: Config<T>, threads: nat, s: State<T>, schedule: seq<(nat, Choice<T>)>, r: State<T>)
    requires Reachable(c, threads, s) && Reaches(c, s, schedule, r)
    ensures s.popped <= r.popped
  {
    ReachableIsGood(c, threads, s);
    RunKeepsGood(c, s, schedule, r);
  }

  /** A pop comes to release the lock and return false exactly when it makes its test while
      everything pushed has been popped. */
  lemma FalseMeansEmpty<T(!new)>(c: Config<T>, threads: nat, s: State<T>, t: nat, choice: Choice<T>)
    requires Reachable(c, threads, s) && t < threads == |s.threads| && Enabled(c, s, t, choice)
    ensures Safe(c, s, t)
    ensures Step(c, s, t, choice).threads[t].pc.ReleaseEmpty? <==> s.threads[t].pc.Test? && s.popped == s.pushed
  {
    ReachableIsGood(c, threads, s);
    InvImpliesSafe(c, s, t);
    FrontIsLive(s);
    OnlyTestFails(c, s, t, choice);
  }

  lemma OnlyTestFails<T>(c: Config<T>, s: State<T>, t: nat, choice: Choice<T>)
    requires t < |s.threads| && Enabled(c, s, t, choice) && Safe(c, s, t)
    ensures Step(c, s, t, choice).threads[t].pc.ReleaseEmpty?
       <==> s.threads[t].pc.Test? && s.heap[s.front].next.None?
  {
    hide PushStep, PopStep, DrainStep;
    var pc := s.threads[t].pc;
    if IsPush(pc) {
      PushDoesNotFail(c, s, t, choice);
    } else if IsPop(pc) {
      PopFailsAtTest(c, s, t, choice);
    } else if IsDrain(pc) {
      DrainDoesNotFail(c, s, t, choice);
    }
  }

  lemma PushDoesNotFail<T>(c: Config<T>, s: State<T>, t: nat, choice: Choice<T>)
    requires t < |s.threads| && Enabled(c, s, t, choice) && Safe(c, s, t) && IsPush(s.threads[t].pc)
    ensures !PushStep(c, s, t, choice).threads[t].pc.ReleaseEmpty?
  {
  }

  lemma PopFailsAtTest<T>(c: Config<T>, s: State<T>, t: nat, choice: Choice<T>)
    requires t < |s.threads| && Enabled(c, s, t, choice) && Safe(c, s, t) && IsPop(s.threads[t].pc)
    ensures PopStep(c, s, t, choice).threads[t].pc.ReleaseEmpty?
       <==> s.threads[t].pc.Test? && s.heap[s.front].next.None?
  {
  }

  lemma DrainDoesNotFail<T>(c: Config<T>, s: State<T>, t: nat, choice: Choice<T>)
    requires t < |s.threads| && Enabled(c, s, t, choice) && Safe(c, s, t) && IsDrain(s.threads[t].pc)
    ensures !DrainStep(c, s, t, choice).threads[t].pc.ReleaseEmpty?
  {
  }

  /** A single pop returns the one value it removed. */
  lemma SinglePopDelivers<T(!new)>(c: Config<T>, threads: nat, s: State<T>, t: nat)
    requires Reachable(c, threads, s) && t < threads
    ensures |s.threads| == threads
    ensures var th := s.threads[t]; th.pc.GotOne? || th.pc.ReleaseOne? ==> th.got == [th.pc.result]
  {
    ReachableIsGood(c, threads, s);
    ShapeOf(c, s, t);
  }

  /** A bulk pop returns as many values as it removed, and all but the last are those it
      removed, in order. The last slot keeps whatever resizing the caller's vector left
      there, so the result is right exactly when that happens to be the last value. With
      the copy made under the lock it is right always. */
  lemma BulkPopDelivers<T(!new)>(c: Config<T>, threads: nat, s: State<T>, t: nat)
    requires Reachable(c, threads, s) && t < threads
    ensures |s.threads| == threads
    ensures var th := s.threads[t];
            th.pc.GotMany? ==>
              var b, results, n := th.pc.b, th.pc.results, |th.got|;
              && n == |results| == b.n > 0
              && results[..n - 1] == th.got[..n - 1]
              && (c.copiesLast ==> results == th.got)
              && (!c.copiesLast ==> (results == th.got <==> Leftover(b, c) == th.got[n - 1]))
  {
    ReachableIsGood(c, threads, s);
    ShapeOf(c, s, t);
    if s.threads[t].pc.GotMany? {
      GotManyIsDelivered(c, s.threads[t], s.chain);
      DeliveredMeans(c, s.threads[t].got, s.threads[t].pc.b, s.threads[t].pc.results);
    }
  }

  lemma GotManyIsDelivered<T>(c: Config<T>, th: Thread<T>, chain: seq<Id>)
    requires chain != [] && th.pc.GotMany? && Shape(c, th, chain)
    ensures Delivered(c, th.got, th.pc.b, th.pc.results)
  {
  }

  lemma DeliveredMeans<T>(c: Config<T>, got: seq<T>, b: Bulk<T>, results: seq<T>)
    requires Delivered(c, got, b, results)
    ensures results[..b.n - 1] == got[..b.n - 1]
    ensures c.copiesLast ==> results == got
    ensures !c.copiesLast ==> (results == got <==> Leftover(b, c) == got[b.n - 1])
  {
    assert results == results[..b.n - 1] + [results[b.n - 1]];
    assert got == got[..b.n - 1] + [got[b.n - 1]];
  }

  /** The linked depth never exceeds the configured maximum by more than one batch for
      each thread, even while the counter has wrapped. */
  lemma DepthIsBounded<T(!new)>(c: Config<T>, threads: nat, s: State<T>)
    requires Reachable(c, threads, s)
    requires c.maxLength + threads * c.maxBatch < TWO_TO_64
    ensures 0 <= Depth(s) <= c.maxLength + threads * c.maxBatch
  {
    ReachableIsGood(c, threads, s);
    assert Chained(s);
  }

  /** Modulo 2^64 the counter is always the depth, less the pushes and plus the pops that
      threads have yet to count. */
  lemma LengthIsAccounted<T(!new)>(c: Config<T>, threads: nat, s: State<T>)
    requires Reachable(c, threads, s)
    ensures Counted(s)
  {
    ReachableIsGood(c, threads, s);
  }

  lemma CountedAtRest<T>(s: State<T>)
    requires Counted(s) && 0 <= Depth(s) < TWO_TO_64
    requires forall t :: 0 <= t < |s.threads| ==> BetweenCalls(s.threads[t].pc)
    ensures s.length == Depth(s)
  {
    TotalsAtRest(s.threads);
    Unwrap(Depth(s), s.length);
  }

  /** Once nobody is in the middle of a call, the counter is the depth. */
  lemma LengthIsExactAtRest<T(!new)>(c: Config<T>, threads: nat, s: State<T>)
    requires Reachable(c, threads, s)
    requires forall t :: 0 <= t < |s.threads| ==> BetweenCalls(s.threads[t].pc)
    requires c.maxLength + threads * c.maxBatch < TWO_TO_64
    ensures s.length == Depth(s)
  {
    ReachableIsGood(c, threads, s);
    CountedAtRest(s);
  }

  lemma AtRestQueueOwnsAll<T(!new)>(c: Config<T>, threads: nat, s: State<T>)
    requires Reachable(c, threads, s)
    requires forall t :: 0 <= t < |s.threads| ==> BetweenCalls(s.threads[t].pc)
    ensures s.heap.Keys == set x | x in s.chain
    ensures Chained(s) && Distinct(s.chain)
  {
    ReachableIsGood(c, threads, s);
    forall t | 0 <= t < |s.threads| ensures s.threads[t].own == [] {
      ShapeOf(c, s, t);
    }
    NothingHeld(s);
  }

  lemma NothingHeld<T>(s: State<T>)
    requires Ownership(s) && forall t :: 0 <= t < |s.threads| ==> s.threads[t].own == []
    ensures s.heap.Keys == set x | x in s.chain
  {
    forall t: nat, x | t < |s.threads| && x in s.owner ensures s.owner[x] != Held(t) {
      assert OwnsExactly(s.owner, s.threads[t].own, t);
    }
    forall x | x in s.owner ensures s.owner[x] == InQueue {
    }
  }

  /** The destructor's loop over a null-terminated chain: it deletes each node once, in
      order, each while it is live. */
  method DeleteAll<T>(nodes: map<Id, Node<T>>, first: Id, ghost chain: seq<Id>) returns (heap: map<Id, Node<T>>,
          deleted: seq<Id>)
    requires chain != [] && first == chain[0] && Distinct(chain) && PointsTo(nodes, chain, None)
    ensures deleted == chain
    ensures heap == nodes - (set x | x in chain)
  {
    heap, deleted := nodes, [];
    var front := Some(first);
    while front.Some?
      invariant |deleted| <= |chain| && deleted == chain[..|deleted|]
      invariant front == if |deleted| < |chain| then Some(chain[|deleted|]) else None
      invariant heap == nodes - (set x | x in deleted)
      decreases |chain| - |deleted|
    {
      var tmp := front.value;
      StillLive(nodes, chain, |deleted|);
      front := heap[tmp].next;
      heap := heap - {tmp};
      deleted := deleted + [tmp];
    }
  }

  lemma StillLive<T>(nodes: map<Id, Node<T>>, chain: seq<Id>, k: nat)
    requires Distinct(chain) && PointsTo(nodes, chain, None) && k < |chain|
    ensures chain[k] in nodes && chain[k] !in chain[..k]
    ensures nodes[chain[k]].next == Successor(chain, k, None)
  {
  }

  /** The destructor, run when every call has returned, frees every node there is. */
  method Destroy<T(!new)>(ghost c: Config<T>, ghost threads: nat, s: State<T>) returns (heap: map<Id, Node<T>>,
          deleted: seq<Id>)
    requires Reachable(c, threads, s)
    requires forall t :: 0 <= t < |s.threads| ==> BetweenCalls(s.threads[t].pc)
    ensures heap == map[] && deleted == s.chain
  {
    AtRestQueueOwnsAll(c, threads, s);
    heap, deleted := DeleteAll(s.heap, s.front, s.chain);
  }
}
