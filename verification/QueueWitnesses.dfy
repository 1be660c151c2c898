/** Runs in which one thread executes statement after statement: that an uncontended push
    completes, that a bulk pop does lose its last value, and that `_back` does come to
    name a node that has been freed. */
module QueueWitnesses {
  import opened Bytes
  import opened ConcurrentQueue
  import opened QueueInvariant
  import opened QueueTheorems

  lemma {:induction false} ReachesThenSteps<T>(c: Config<T>, s: State<T>, schedule: seq<(nat, Choice<T>)>,
          r: State<T>, t: nat, choice: Choice<T>)
    requires Reaches(c, s, schedule, r)
    requires t < |r.threads| && Enabled(c, r, t, choice) && Safe(c, r, t)
    ensures Reaches(c, s, schedule + [(t, choice)], Step(c, r, t, choice))
    decreases |schedule|
  {
    if schedule == [] {
      assert Reaches(c, Step(c, r, t, choice), [], Step(c, r, t, choice));
    } else {
      var (u, first) := schedule[0];
      ReachesThenSteps(c, Step(c, s, u, first), schedule[1..], r, t, choice);
      assert (schedule + [(t, choice)])[1..] == schedule[1..] + [(t, choice)];
    }
  }

  /** A reachable state can take any enabled step. */
  lemma Next<T(!new)>(c: Config<T>, n: nat, s: State<T>, t: nat, choice: Choice<T>) returns (r: State<T>)
    requires Reachable(c, n, s) && t < |s.threads| && Enabled(c, s, t, choice)
    ensures Safe(c, s, t) && r == Step(c, s, t, choice) && Reachable(c, n, r)
  {
    hide Inv, Step, Enabled, Good;
    ReachableIsGood(c, n, s);
    EveryStatementIsSafe(c, n, s, t);
    r := Step(c, s, t, choice);
    var dummy: Id, schedule: seq<(nat, Choice<T>)> :| Reaches(c, Init(c, dummy, n), schedule, s);
    ReachesThenSteps(c, Init(c, dummy, n), schedule, s, t, choice);
  }

  /** The same for a statement of a pop, and for one after it has released the lock. */
  lemma NextPop<T(!new)>(c: Config<T>, n: nat, s: State<T>, t: nat) returns (r: State<T>)
    requires Reachable(c, n, s) && t < |s.threads| && IsPop(s.threads[t].pc)
    ensures Enabled(c, s, t, Go) && Safe(c, s, t) && r == PopStep(c, s, t, Go) && Reachable(c, n, r)
  {
    hide Reachable, PopStep, PushStep, DrainStep, Safe;
    r := Next(c, n, s, t, Go);
  }

  lemma NextDrain<T(!new)>(c: Config<T>, n: nat, s: State<T>, t: nat) returns (r: State<T>)
    requires Reachable(c, n, s) && t < |s.threads| && IsDrain(s.threads[t].pc)
    ensures Enabled(c, s, t, Go) && Safe(c, s, t) && r == DrainStep(c, s, t, Go) && Reachable(c, n, r)
  {
    hide Reachable, PopStep, PushStep, DrainStep, Safe;
    r := Next(c, n, s, t, Go);
  }

  /** A state without its threads. */
  datatype Queue<T> = Queue(
    heap: map<Id, Node<T>>, front: Id, back: Id,
    pushing: Option<nat>, popping: Option<nat>, length: nat,
    chain: seq<Id>, owner: map<Id, Owner>, pushed: seq<T>, popped: seq<T>)

  /** The queue `q`, with thread `t` of `threads` about to execute `pc`. */
  function At<T>(q: Queue<T>, threads: seq<Thread<T>>, t: nat, pc: Pc<T>, own: seq<Id>, got: seq<T>): State<T>
    requires t < |threads|
  {
    State(q.heap, q.front, q.back, q.pushing, q.popping, q.length, threads[t := Thread(pc, own, got)],
          q.chain, q.owner, q.pushed, q.popped)
  }

  /** The queue once thread `t` has allocated node `id` for value `x`. */
  function Allocated<T>(q: Queue<T>, t: nat, x: T, id: Id): Queue<T> {
    q.(heap := q.heap[id := Node(x, None)], owner := q.owner[id := Held(t)])
  }

  /** The queue once thread `t` has taken the lock and linked `id`. */
  function Linked<T>(q: Queue<T>, t: nat, x: T, id: Id): Queue<T>
    requires q.back in q.heap
  {
    q.(pushing := Some(t), heap := SetNext(q.heap, q.back, id), chain := q.chain + [id],
       owner := Give(q.owner, [id], InQueue), pushed := q.pushed + [x])
  }

  predicate CanDetach<T>(q: Queue<T>) {
    HasNext(q.heap, q.front) && q.heap[q.front].next.value in q.heap
  }

  function Removed<T>(q: Queue<T>): T
    requires CanDetach(q)
  {
    q.heap[q.heap[q.front].next.value].value
  }

  /** The queue once thread `t` has removed the value at the front. */
  function Advanced<T>(q: Queue<T>, t: nat): Queue<T>
    requires CanDetach(q)
  {
    q.(front := q.heap[q.front].next.value, chain := Tail(q.chain), owner := q.owner[q.front := Held(t)],
       popped := q.popped + [Removed(q)])
  }

  // A push of one value that meets no other producer

  lemma StartsPush<T(!new)>(c: Config<T>, n: nat, q: Queue<T>, threads: seq<Thread<T>>, t: nat, x: T, id: Id,
          got: seq<T>)
    requires t < |threads| && Reachable(c, n, At(q, threads, t, Idle, [], got))
    requires c.maxBatch >= 1 && q.length <= c.maxLength && id !in q.heap
    ensures Reachable(c, n, At(Allocated(q, t, x, id), threads, t, AcquirePush([x]), [id], []))
  {
    hide Reachable, Safe, PopStep, DrainStep, DoTie, DoLink;
    var s1 := Next(c, n, At(q, threads, t, Idle, [], got), t, CallPush([x]));
    assert s1.threads == threads[t := Thread(Gate([x]), [], [])];
    var s2 := Next(c, n, s1, t, Go);
    assert s2.threads == threads[t := Thread(Alloc([x]), [], [])];
    var s3 := Next(c, n, s2, t, Address(id));
    assert [] + [id] == [id];
    assert s3.threads == threads[t := Thread(AcquirePush([x]), [id], [])];
  }

  lemma LinksOne<T(!new)>(c: Config<T>, n: nat, q: Queue<T>, threads: seq<Thread<T>>, t: nat, x: T, id: Id)
    requires t < |threads| && Reachable(c, n, At(q, threads, t, AcquirePush([x]), [id], []))
    requires q.pushing.None? && q.back in q.heap
    ensures Reachable(c, n, At(Linked(q, t, x, id), threads, t, SwingBack(id, 1), [], []))
  {
    hide Reachable, Safe, PopStep, DrainStep, Detach, Delete, DoAlloc, DoTie, SetNext, Give;
    var s1 := Next(c, n, At(q, threads, t, AcquirePush([x]), [id], []), t, Go);
    assert s1.threads == threads[t := Thread(Link([x]), [id], [])];
    var s2 := Next(c, n, s1, t, Go);
    assert s2.threads == threads[t := Thread(SwingBack(id, 1), [], [])];
  }

  lemma EndsPush<T(!new)>(c: Config<T>, n: nat, q: Queue<T>, threads: seq<Thread<T>>, t: nat, id: Id)
    requires t < |threads| && Reachable(c, n, At(q, threads, t, SwingBack(id, 1), [], []))
    ensures Reachable(c, n, At(q.(back := id, pushing := None, length := (q.length + 1) % TWO_TO_64),
                            threads, t, Idle, [], []))
  {
    hide Reachable, Safe, PopStep, DrainStep, Detach, Delete, DoAlloc, DoTie, DoLink;
    var s1 := Next(c, n, At(q, threads, t, SwingBack(id, 1), [], []), t, Go);
    assert s1.threads == threads[t := Thread(ReleasePush(1), [], [])];
    var s2 := Next(c, n, s1, t, Go);
    assert s2.threads == threads[t := Thread(CountUp(1), [], [])];
    var s3 := Next(c, n, s2, t, Go);
    assert s3.threads == threads[t := Thread(Idle, [], [])];
  }

  // A pop that meets no other consumer

  lemma StartsPop<T(!new)>(c: Config<T>, n: nat, q: Queue<T>, threads: seq<Thread<T>>, t: nat, many: bool,
          target: seq<T>, got: seq<T>)
    requires t < |threads| && Reachable(c, n, At(q, threads, t, Idle, [], got))
    requires q.popping.None? && HasNext(q.heap, q.front)
    ensures Reachable(c, n, At(q.(popping := Some(t)), threads, t, Save(many, target), [], []))
  {
    hide Reachable, Safe, PushStep, DrainStep, Detach, Delete;
    var s1 := Next(c, n, At(q, threads, t, Idle, [], got), t, CallPop(many, target));
    assert s1.threads == threads[t := Thread(AcquirePop(many, target), [], [])];
    var s2 := Next(c, n, s1, t, Go);
    assert s2.threads == threads[t := Thread(Test(many, target), [], [])];
    var s3 := Next(c, n, s2, t, Go);
    assert s3.threads == threads[t := Thread(Save(many, target), [], [])];
  }

  lemma TakesOne<T(!new)>(c: Config<T>, n: nat, q: Queue<T>, threads: seq<Thread<T>>, t: nat, target: seq<T>)
    requires t < |threads| && Reachable(c, n, At(q, threads, t, Save(false, target), [], []))
    requires CanDetach(q)
    ensures Reachable(c, n, At(Advanced(q, t), threads, t, ReleaseOne(q.front, Removed(q)), [q.front], [Removed(q)]))
  {
    hide Reachable, Safe, Step, Enabled, PushStep, DrainStep, DoAlloc, DoTie, DoLink, Delete;
    var s1 := NextPop(c, n, At(q, threads, t, Save(false, target), [], []), t);
    assert s1.threads == threads[t := Thread(Advance(q.front), [], [])];
    var s2 := NextPop(c, n, s1, t);
    assert [] + [q.front] == [q.front] && [] + [Removed(q)] == [Removed(q)];
    assert s2.threads == threads[t := Thread(Copy(q.front), [q.front], [Removed(q)])];
    var s3 := NextPop(c, n, s2, t);
    assert s3.threads == threads[t := Thread(ReleaseOne(q.front, Removed(q)), [q.front], [Removed(q)])];
  }

  lemma EndsPop<T(!new)>(c: Config<T>, n: nat, q: Queue<T>, threads: seq<Thread<T>>, t: nat, prior: Id, x: T,
          got: seq<T>)
    requires t < |threads| && Reachable(c, n, At(q, threads, t, ReleaseOne(prior, x), [prior], got))
    ensures Reachable(c, n, At(q.(popping := None, heap := q.heap - {prior}, owner := q.owner - {prior}),
                            threads, t, CountDown(x), [], got))
  {
    hide Reachable, Safe, Step, Enabled, PushStep, DrainStep, DoAlloc, DoTie, DoLink, Detach;
    var s1 := NextPop(c, n, At(q, threads, t, ReleaseOne(prior, x), [prior], got), t);
    assert s1.threads == threads[t := Thread(DeleteOne(prior, x), [prior], got)];
    var s2 := NextPop(c, n, s1, t);
    assert Except([prior], 0) == [];
    assert s2.threads == threads[t := Thread(CountDown(x), [], got)];
  }

  lemma WalksOne<T(!new)>(c: Config<T>, n: nat, q: Queue<T>, threads: seq<Thread<T>>, t: nat, target: seq<T>)
    requires t < |threads| && Reachable(c, n, At(q, threads, t, Save(true, target), [], []))
    requires CanDetach(q) && q.heap[q.heap[q.front].next.value].next.None?
    ensures Reachable(c, n, At(Advanced(q, t), threads, t, CountMany(q.front, 1, target), [q.front], [Removed(q)]))
  {
    hide Reachable, Safe, Step, Enabled, PushStep, DrainStep, DoAlloc, DoTie, DoLink, Delete;
    var s1 := NextPop(c, n, At(q, threads, t, Save(true, target), [], []), t);
    assert s1.threads == threads[t := Thread(WalkTest(q.front, 0, target), [], [])];
    var s2 := NextPop(c, n, s1, t);
    assert s2.threads == threads[t := Thread(WalkHop(q.front, 0, target), [], [])];
    var s3 := NextPop(c, n, s2, t);
    assert [] + [q.front] == [q.front] && [] + [Removed(q)] == [Removed(q)];
    assert s3.threads == threads[t := Thread(WalkTest(q.front, 1, target), [q.front], [Removed(q)])];
    var s4 := NextPop(c, n, s3, t);
    assert s4.threads == threads[t := Thread(CountMany(q.front, 1, target), [q.front], [Removed(q)])];
  }

  lemma DropsLock<T(!new)>(c: Config<T>, n: nat, q: Queue<T>, threads: seq<Thread<T>>, t: nat, prior: Id,
          target: seq<T>, own: seq<Id>, got: seq<T>)
    requires t < |threads| && Reachable(c, n, At(q, threads, t, CountMany(prior, 1, target), own, got))
    requires !c.copiesLast && q.front in q.heap
    ensures Reachable(c, n, At(q.(length := (q.length - 1) % TWO_TO_64, popping := None),
                            threads, t, Resize(Bulk(prior, q.front, 1, target, None)), own, got))
  {
    hide Reachable, Safe, Step, Enabled, PushStep, DrainStep, DoAlloc, DoTie, DoLink, Detach, Delete;
    var s1 := NextPop(c, n, At(q, threads, t, CountMany(prior, 1, target), own, got), t);
    assert s1.threads == threads[t := Thread(SaveNew(prior, 1, target), own, got)];
    var s2 := NextPop(c, n, s1, t);
    assert s2.threads == threads[t := Thread(ReleaseMany(Bulk(prior, q.front, 1, target, None)), own, got)];
    var s3 := NextPop(c, n, s2, t);
    assert s3.threads == threads[t := Thread(Resize(Bulk(prior, q.front, 1, target, None)), own, got)];
  }

  lemma DrainsNothing<T(!new)>(c: Config<T>, n: nat, q: Queue<T>, threads: seq<Thread<T>>, t: nat, b: Bulk<T>,
          got: seq<T>)
    requires t < |threads| && Reachable(c, n, At(q, threads, t, Resize(b), [b.prior], got))
    requires HasNext(q.heap, b.prior) && q.heap[b.prior].next.value == b.newFront && b.last.None?
    ensures Reachable(c, n, At(q.(heap := q.heap - {b.prior}, owner := q.owner - {b.prior}),
                            threads, t, GotMany(b, Resized(b.target, b.n, c.blank)), [], got))
  {
    hide Reachable, Safe, Step, Enabled, PushStep, PopStep, DoAlloc, DoTie, DoLink, Detach, Resized;
    var s1 := NextDrain(c, n, At(q, threads, t, Resize(b), [b.prior], got), t);
    assert s1.threads == threads[t := Thread(Enter(b, Resized(b.target, b.n, c.blank)), [b.prior], got)];
    var s2 := NextDrain(c, n, s1, t);
    assert s2.threads
           == threads[t := Thread(DrainTest(b, Resized(b.target, b.n, c.blank), b.newFront, 0), [b.prior], got)];
    var s3 := NextDrain(c, n, s2, t);
    assert s3.threads == threads[t := Thread(DeleteOld(b, Resized(b.target, b.n, c.blank)), [b.prior], got)];
    var s4 := NextDrain(c, n, s3, t);
    assert Except([b.prior], 0) == [];
    assert s4.threads == threads[t := Thread(GotMany(b, Resized(b.target, b.n, c.blank)), [], got)];
  }

  // Two whole runs

  /** The queue as constructed, with the dummy at address 0. */
  function New<T>(c: Config<T>): Queue<T> {
    Queue(map[0 := Node(c.blank, None)], 0, 0, None, None, 0, [0], map[0 := InQueue], [], [])
  }

  function Idlers<T>(n: nat): seq<Thread<T>> {
    seq(n, i => Thread(Idle, [], []))
  }

  lemma Starts<T(!new)>(c: Config<T>, n: nat)
    requires n >= 1
    ensures Reachable(c, n, At(New(c), Idlers(n), 0, Idle, [], []))
  {
    assert Init(c, 0, n).threads == Idlers(n)[0 := Thread(Idle, [], [])];
    assert Reaches(c, Init(c, 0, n), [], At(New(c), Idlers(n), 0, Idle, [], []));
  }

  /** The queue with one value, just linked. */
  function OneLinked<T>(c: Config<T>, x: T): Queue<T> {
    Linked(Allocated(New(c), 0, x, 1), 0, x, 1)
  }

  lemma LinksFirst<T(!new)>(c: Config<T>, n: nat, x: T)
    requires n >= 1 && c.maxBatch >= 1
    ensures Reachable(c, n, At(OneLinked(c, x), Idlers(n), 0, SwingBack(1, 1), [], []))
    ensures OneLinked(c, x).heap == map[0 := Node(c.blank, Some(1)), 1 := Node(x, None)]
  {
    hide Reachable, At;
    Starts(c, n);
    StartsPush(c, n, New(c), Idlers(n), 0, x, 1, []);
    LinksOne(c, n, Allocated(New(c), 0, x, 1), Idlers(n), 0, x, 1);
  }

  /** While a producer is between linking a node and moving `_back`, a consumer may already
      have freed the node that `_back` names. */
  lemma BackMayDangle<T(!new)>(c: Config<T>, x: T) returns (s: State<T>)
    requires c.maxBatch >= 1
    ensures Reachable(c, 2, s) && s.back !in s.heap
  {
    hide Reachable;
    LinksFirst(c, 2, x);
    var q := OneLinked(c, x);
    var threads := Idlers(2)[0 := Thread(SwingBack(1, 1), [], [])];
    assert threads == threads[1 := Thread(Idle, [], [])];
    StartsPop(c, 2, q, threads, 1, false, [], []);
    var locked := q.(popping := Some(1));
    TakesOne(c, 2, locked, threads, 1, []);
    q := Advanced(locked, 1);
    EndsPop(c, 2, q, threads, 1, 0, x, [x]);
    s := At(q.(popping := None, heap := q.heap - {0}, owner := q.owner - {0}), threads, 1, CountDown(x), [], [x]);
  }

  /** A bulk pop of a queue that holds one value removes it and returns a blank. */
  lemma BulkPopLosesLast<T(!new)>(c: Config<T>, x: T) returns (s: State<T>)
    requires c.maxBatch >= 1 && !c.copiesLast
    ensures Reachable(c, 1, s) && |s.threads| == 1
    ensures s.threads[0].pc.GotMany? && s.threads[0].got == s.pushed == [x]
    ensures s.threads[0].pc.results == [c.blank]
  {
    hide Reachable;
    LinksFirst(c, 1, x);
    var q := OneLinked(c, x);
    var threads := Idlers(1);
    EndsPush(c, 1, q, threads, 0, 1);
    q := q.(back := 1, pushing := None, length := 1);
    StartsPop(c, 1, q, threads, 0, true, [], []);
    q := q.(popping := Some(0));
    WalksOne(c, 1, q, threads, 0, []);
    q := Advanced(q, 0);
    DropsLock(c, 1, q, threads, 0, 0, [], [0], [x]);
    q := q.(length := 0, popping := None);
    var b := Bulk(0, 1, 1, [], None);
    DrainsNothing(c, 1, q, threads, 0, b, [x]);
    s := At(q.(heap := q.heap - {0}, owner := q.owner - {0}), threads, 0, GotMany(b, Resized([], 1, c.blank)), [], [x]);
  }
}
