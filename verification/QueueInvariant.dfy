/** What every reachable state of the queue satisfies, and that each statement keeps it. */
module QueueInvariant {
  import opened Bytes
  import opened ConcurrentQueue

  ghost predicate Distinct<X>(s: seq<X>) {
    forall i, j :: 0 <= i < j < |s| ==> s[i] != s[j]
  }

  /** Each node of `ids` is live and points to the next; the last one points to `end`. */
  ghost predicate PointsTo<T>(heap: map<Id, Node<T>>, ids: seq<Id>, end: Option<Id>) {
    && (forall i :: 0 <= i < |ids| ==> ids[i] in heap)
    && (forall i {:trigger heap[ids[i]]} :: 0 <= i < |ids| ==> heap[ids[i]].next == Successor(ids, i, end))
  }

  function Successor(ids: seq<Id>, i: nat, end: Option<Id>): Option<Id> {
    if i + 1 < |ids| then Some(ids[i + 1]) else end
  }

  /** The nodes `ids` are live and hold the values `vals`. */
  ghost predicate Holds<T>(heap: map<Id, Node<T>>, ids: seq<Id>, vals: seq<T>) {
    && |ids| == |vals|
    && (forall i :: 0 <= i < |ids| ==> ids[i] in heap)
    && (forall i {:trigger heap[ids[i]]} {:trigger vals[i]} :: 0 <= i < |ids| ==> heap[ids[i]].value == vals[i])
  }

  /** Every live node has one owner: the queue, which lists it once in `chain`, or one
      thread, which lists it once in `own`. Nothing else is live and nothing leaks. */
  ghost predicate Ownership<T>(s: State<T>) {
    && s.heap.Keys == s.owner.Keys
    && Distinct(s.chain)
    && (forall i :: 0 <= i < |s.chain| ==> s.chain[i] in s.owner && s.owner[s.chain[i]] == InQueue)
    && (forall x :: x in s.owner && s.owner[x] == InQueue ==> x in s.chain)
    && (forall t :: 0 <= t < |s.threads| ==> OwnsExactly(s.owner, s.threads[t].own, t))
    && (forall x :: x in s.owner && s.owner[x].Held? ==> s.owner[x].t < |s.threads|)
  }

  ghost predicate OwnsExactly(owner: map<Id, Owner>, own: seq<Id>, t: nat) {
    && Distinct(own)
    && (forall i :: 0 <= i < |own| ==> own[i] in owner && owner[own[i]] == Held(t))
    && (forall x :: x in owner && owner[x] == Held(t) ==> x in own)
  }

  /** The chain runs from `front` to a node without successor, and `back` names that node
      except while a producer stands between its two updates. */
  ghost predicate Chained<T>(s: State<T>) {
    && s.chain != [] && s.front == s.chain[0]
    && PointsTo(s.heap, s.chain, None)
    && (s.back == Last(s.chain)
       || (s.pushing.Some? && s.pushing.value < |s.threads| && s.threads[s.pushing.value].pc.SwingBack?))
  }

  predicate InPush<T>(pc: Pc<T>) {
    pc.Link? || pc.SwingBack? || pc.ReleasePush?
  }

  predicate InPop<T>(pc: Pc<T>) {
    pc.Test? || pc.ReleaseEmpty? || pc.Save? || pc.Advance? || pc.Copy? || pc.ReleaseOne?
    || pc.WalkTest? || pc.WalkHop? || pc.CountMany? || pc.SaveNew? || pc.ReleaseMany?
  }

  /** A lock flag is set exactly while one thread is in its critical section. */
  ghost predicate Locked<T>(s: State<T>) {
    && (s.pushing.Some? ==> s.pushing.value < |s.threads|)
    && (s.popping.Some? ==> s.popping.value < |s.threads|)
    && (forall t :: 0 <= t < |s.threads| ==> (InPush(s.threads[t].pc) <==> s.pushing == Some(t)))
    && (forall t :: 0 <= t < |s.threads| ==> (InPop(s.threads[t].pc) <==> s.popping == Some(t)))
  }

  /** What a bulk pop leaves in the last slot of the vector it was given. */
  function Leftover<T>(b: Bulk<T>, c: Config<T>): T
    requires b.n > 0
  {
    if b.n <= |b.target| then b.target[b.n - 1] else c.blank
  }

  predicate Walking<T>(pc: Pc<T>) {
    pc.WalkTest? || pc.WalkHop? || pc.CountMany? || pc.SaveNew?
  }

  predicate Detached<T>(pc: Pc<T>) {
    pc.ReleaseMany? || pc.Resize? || pc.Enter?
  }

  predicate Draining<T>(pc: Pc<T>) {
    pc.DrainTest? || pc.DrainCopy? || pc.DrainNext? || pc.DrainDelete? || pc.DeleteOld?
  }

  predicate Building<T>(pc: Pc<T>) {
    pc.Alloc? || pc.Tie? || pc.AcquirePush? || pc.Link?
  }

  /** A bulk pop whose `own` starts at the old front and, once the first `gone` values are
      drained, holds one node for each value but the last. */
  ghost predicate BulkShape<T>(c: Config<T>, th: Thread<T>, b: Bulk<T>, gone: nat) {
    && gone < b.n && |th.got| == b.n && |th.own| == b.n - gone && th.own[0] == b.prior
    && b.newFront !in th.own
    && b.last == if c.copiesLast then Some(th.got[b.n - 1]) else None
  }

  /** The result vector after `done` copies. */
  ghost predicate Filled<T>(c: Config<T>, got: seq<T>, b: Bulk<T>, results: seq<T>, done: nat) {
    && done < b.n == |got| == |results|
    && results[..done] == got[..done]
    && results[b.n - 1] == Leftover(b, c)
  }

  /** What a finished bulk pop has put in the vector, against what it removed. */
  ghost predicate Delivered<T>(c: Config<T>, got: seq<T>, b: Bulk<T>, results: seq<T>) {
    && b.n > 0 && |got| == b.n == |results|
    && results[..b.n - 1] == got[..b.n - 1]
    && results[b.n - 1] == if c.copiesLast then got[b.n - 1] else Leftover(b, c)
  }

  /** How many drained values' nodes are gone. */
  function Gone<T>(pc: Pc<T>): nat {
    match pc
    case DrainTest(_, _, _, i) => i
    case DrainCopy(_, _, _, i) => i
    case DrainNext(_, _, _, i) => i
    case DrainDelete(_, _, _, i, _) => if i > 0 then i - 1 else 0
    case DeleteOld(b, _) => if b.n > 0 then b.n - 1 else 0
    case _ => 0
  }

  /** The sizes and positions of a thread's locals, memory aside. */
  ghost predicate Shape<T>(c: Config<T>, th: Thread<T>, chain: seq<Id>)
    requires chain != []
  {
    var own, got, front := th.own, th.got, chain[0];
    match th.pc
    case Idle => own == []
    case Gate(vals) => own == [] && vals != []
    case Alloc(vals) => |own| < |vals|
    case Tie(vals) => 2 <= |own| <= |vals|
    case AcquirePush(vals) => own != [] && |own| == |vals|
    case Link(vals) => own != [] && |own| == |vals|
    case SwingBack(tail, n) => own == [] && n > 0 && tail == Last(chain)
    case ReleasePush(n) => own == [] && n > 0
    case CountUp(n) => own == [] && n > 0
    case AcquirePop(_, _) => own == [] && got == []
    case Test(_, _) => own == [] && got == []
    case ReleaseEmpty => own == []
    case Save(_, _) => own == [] && got == [] && |chain| >= 2
    case Advance(prior) => own == [] && got == [] && |chain| >= 2 && prior == front
    case Copy(prior) => own == [prior] && |got| == 1
    case ReleaseOne(prior, result) => own == [prior] && got == [result]
    case DeleteOne(prior, result) => own == [prior] && got == [result]
    case CountDown(result) => own == [] && got == [result]
    case GotOne(result) => own == [] && got == [result]
    case WalkTest(prior, n, _) => |own| == n == |got| && prior == (own + [front])[0] && (n == 0 ==> |chain| >= 2)
    case WalkHop(prior, n, _) => |own| == n == |got| && prior == (own + [front])[0] && |chain| >= 2
    case CountMany(prior, n, _) => |own| == n == |got| && prior == (own + [front])[0] && n > 0
    case SaveNew(prior, n, _) => |own| == n == |got| && prior == (own + [front])[0] && n > 0
    case ReleaseMany(b) => BulkShape(c, th, b, 0)
    case Resize(b) => BulkShape(c, th, b, 0)
    case Enter(b, results) => BulkShape(c, th, b, 0) && results == Resized(b.target, b.n, c.blank)
    case DrainTest(b, results, entry, i) =>
      BulkShape(c, th, b, i) && Filled(c, got, b, results, i) && entry == (own + [b.newFront])[1]
    case DrainCopy(b, results, entry, i) =>
      BulkShape(c, th, b, i) && Filled(c, got, b, results, i) && |own| > 1 && entry == own[1]
    case DrainNext(b, results, entry, i) =>
      BulkShape(c, th, b, i) && Filled(c, got, b, results, i + 1) && |own| > 1 && entry == own[1]
    case DrainDelete(b, results, entry, i, doomed) =>
      && i > 0 && BulkShape(c, th, b, i - 1) && Filled(c, got, b, results, i)
      && |own| > 1 && doomed == own[1] && entry == (own + [b.newFront])[2]
    case DeleteOld(b, results) => b.n > 0 && BulkShape(c, th, b, b.n - 1) && Filled(c, got, b, results, b.n - 1)
    case GotMany(b, results) => own == [] && Delivered(c, got, b, results)
  }

  /** The thread's nodes that are tied together, in order. */
  function Tied<T>(th: Thread<T>): seq<Id> {
    if th.pc.Tie? then (if th.own == [] then [] else th.own[..|th.own| - 1])
    else if Building(th.pc) || Walking(th.pc) || Detached(th.pc) then th.own
    else if Draining(th.pc) then Tail(th.own)
    else []
  }

  /** Where the last of them points. */
  function End<T>(th: Thread<T>, front: Id): Option<Id> {
    if Walking(th.pc) then Some(front)
    else if Detached(th.pc) || Draining(th.pc) then Some(th.pc.b.newFront)
    else None
  }

  /** The thread's nodes whose values are spoken for. */
  function Holding<T>(th: Thread<T>): seq<Id> {
    if Building(th.pc) then th.own
    else if Walking(th.pc) || Detached(th.pc) || Draining(th.pc) then Tail(th.own)
    else []
  }

  /** Those values. */
  function Spoken<T>(th: Thread<T>): seq<T> {
    if Building(th.pc) then Slice(th.pc.vals, 0, |th.own|)
    else if Walking(th.pc) || Detached(th.pc) || Draining(th.pc) then Slice(th.got, Gone(th.pc), |th.got| - 1)
    else []
  }

  function Slice<X>(s: seq<X>, from: int, to: int): seq<X> {
    if 0 <= from <= to <= |s| then s[from..to] else []
  }

  /** A pop that holds the lock and has removed a value: the node at the front has it. */
  ghost predicate FrontHolds<T>(th: Thread<T>, heap: map<Id, Node<T>>, front: Id) {
    (th.pc.Copy? || Walking(th.pc)) && th.got != [] ==> front in heap && heap[front].value == Last(th.got)
  }

  ghost predicate EntryIsFresh<T>(th: Thread<T>, heap: map<Id, Node<T>>) {
    th.pc.Tie? && th.own != [] ==> Last(th.own) in heap && heap[Last(th.own)].next == None
  }

  /** The locals of a thread agree with the nodes it owns and the values it took. */
  ghost predicate LocalOk<T>(c: Config<T>, th: Thread<T>, heap: map<Id, Node<T>>, chain: seq<Id>)
    requires chain != []
  {
    && Shape(c, th, chain)
    && PointsTo(heap, Tied(th), End(th, chain[0]))
    && Holds(heap, Holding(th), Spoken(th))
    && FrontHolds(th, heap, chain[0])
    && EntryIsFresh(th, heap)
  }

  /** Popped values, then the values still linked, are the values pushed. */
  ghost predicate Fifo<T>(s: State<T>) {
    && s.chain != [] && s.popped <= s.pushed
    && Holds(s.heap, s.chain[1..], s.pushed[|s.popped|..])
  }

  ghost predicate Inv<T>(c: Config<T>, s: State<T>) {
    && Ownership(s) && Chained(s) && Locked(s) && Fifo(s)
    && forall t :: 0 <= t < |s.threads| ==> LocalOk(c, s.threads[t], s.heap, s.chain)
  }

  lemma InitKeepsInv<T>(c: Config<T>, dummy: Id, threads: nat)
    ensures Inv(c, Init(c, dummy, threads))
  {
  }

  lemma OwnIsLive<T>(s: State<T>, t: nat)
    requires Ownership(s) && t < |s.threads|
    ensures forall i :: 0 <= i < |s.threads[t].own| ==> s.threads[t].own[i] in s.heap
    ensures Distinct(s.threads[t].own)
  {
    assert OwnsExactly(s.owner, s.threads[t].own, t);
  }

  lemma FrontIsLive<T>(s: State<T>)
    requires Chained(s)
    ensures s.front in s.heap && Last(s.chain) in s.heap
    ensures |s.chain| >= 2 ==> s.heap[s.front].next == Some(s.chain[1]) && s.chain[1] in s.heap
    ensures |s.chain| == 1 ==> s.heap[s.front].next == None
  {
  }

  lemma PushIsSafe<T>(c: Config<T>, s: State<T>, t: nat)
    requires Inv(c, s) && t < |s.threads| && IsPush(s.threads[t].pc)
    ensures Safe(c, s, t)
  {
    assert LocalOk(c, s.threads[t], s.heap, s.chain);
    OwnIsLive(s, t);
    FrontIsLive(s);
    if s.threads[t].pc.Link? {
      assert s.pushing == Some(t);
    }
  }

  lemma PopIsSafe<T>(c: Config<T>, s: State<T>, t: nat)
    requires Inv(c, s) && t < |s.threads| && IsPop(s.threads[t].pc)
    ensures Safe(c, s, t)
  {
    assert LocalOk(c, s.threads[t], s.heap, s.chain);
    OwnIsLive(s, t);
    FrontIsLive(s);
    if s.threads[t].pc.DeleteOne? {
      assert s.threads[t].own[0] == s.threads[t].pc.prior;
    }
  }

  /** A detached node of a bulk pop leads on. */
  lemma TiedHasNext<T>(th: Thread<T>, heap: map<Id, Node<T>>, front: Id)
    requires PointsTo(heap, Tied(th), End(th, front))
    requires th.pc.Enter? || th.pc.DrainNext?
    requires Tied(th) != []
    ensures HasNext(heap, Tied(th)[0])
  {
    assert heap[Tied(th)[0]].next == Successor(Tied(th), 0, End(th, front));
  }

  lemma DrainIsSafe<T>(c: Config<T>, s: State<T>, t: nat)
    requires t < |s.threads| && IsDrain(s.threads[t].pc) && s.chain != []
    requires Shape(c, s.threads[t], s.chain)
    requires PointsTo(s.heap, Tied(s.threads[t]), End(s.threads[t], s.chain[0]))
    requires forall i :: 0 <= i < |s.threads[t].own| ==> s.threads[t].own[i] in s.heap
    ensures Safe(c, s, t)
  {
    var th := s.threads[t];
    if th.pc.Enter? || th.pc.DrainNext? {
      TiedHasNext(th, s.heap, s.chain[0]);
    }
  }

  /** In every such state the next statement of every thread is memory-safe. */
  lemma InvImpliesSafe<T>(c: Config<T>, s: State<T>, t: nat)
    requires Inv(c, s) && t < |s.threads|
    ensures Safe(c, s, t)
  {
    if IsPush(s.threads[t].pc) {
      PushIsSafe(c, s, t);
    } else if IsDrain(s.threads[t].pc) {
      OwnIsLive(s, t);
      DrainIsSafe(c, s, t);
    } else if IsPop(s.threads[t].pc) {
      PopIsSafe(c, s, t);
    }
  }
}
