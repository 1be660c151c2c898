/** ConcurrentQueue as a step system: any number of threads, each about to execute one
    statement, interleaved in any order over an explicit heap of live nodes. */
module ConcurrentQueue {
  import opened Bytes

  type Id = nat

  datatype Node<T> = Node(value: T, next: Option<Id>)

  /** `maxLength` as constructed, the value T() of the dummy and of resized vectors, the
      longest batch any caller pushes, and whether bulk pops copy the last value while
      they still hold the lock: the code does not, the corrected variant does. */
  datatype Config<T> = Config(maxLength: nat, blank: T, maxBatch: nat, copiesLast: bool)

  /** The locals of a bulk pop that has released the lock. */
  datatype Bulk<T> = Bulk(prior: Id, newFront: Id, n: nat, target: seq<T>, last: Option<T>)

  /** Where a thread is: the step it takes next, one statement or loop test of the original,
      with the locals it needs for it. */
  datatype Pc<T> =
    | Idle
      // Pushing one value or a vector
    | Gate(vals: seq<T>)                      // wait until the counter is within the maximum
    | Alloc(vals: seq<T>)                     // make the node for the next value
    | Tie(vals: seq<T>)                       // let the node before it point to it
    | AcquirePush(vals: seq<T>)               // spin for the producers' lock
    | Link(vals: seq<T>)                      // append the new nodes behind the last one
    | SwingBack(tail: Id, n: nat)             // let the back name the last of them
    | ReleasePush(n: nat)                     // give up the lock
    | CountUp(n: nat)                         // add them to the counter
      // Popping one value or all
    | AcquirePop(many: bool, target: seq<T>)  // spin for the consumers' lock
    | Test(many: bool, target: seq<T>)        // is anything linked behind the dummy?
    | ReleaseEmpty                            // nothing is: give up the lock and return false
    | Save(many: bool, target: seq<T>)        // remember the dummy
    | Advance(prior: Id)                      // make its successor the dummy
    | Copy(prior: Id)                         // take the value of the new dummy
    | ReleaseOne(prior: Id, result: T)        // give up the lock
    | DeleteOne(prior: Id, result: T)         // free the old dummy
    | CountDown(result: T)                    // take one off the counter
    | GotOne(result: T)                       // return true
    | WalkTest(prior: Id, n: nat, target: seq<T>)   // is the front at the end of the chain?
    | WalkHop(prior: Id, n: nat, target: seq<T>)    // not yet: move it on by one and count that
    | CountMany(prior: Id, n: nat, target: seq<T>)  // take them all off the counter
    | SaveNew(prior: Id, n: nat, target: seq<T>)    // remember where the front has stopped
    | ReleaseMany(b: Bulk<T>)                 // give up the lock
    | Resize(b: Bulk<T>)                      // make the caller's vector that long
    | Enter(b: Bulk<T>, results: seq<T>)      // go to the node after the old dummy
    | DrainTest(b: Bulk<T>, results: seq<T>, entry: Id, i: nat)    // is it where the front stopped?
    | DrainCopy(b: Bulk<T>, results: seq<T>, entry: Id, i: nat)    // not yet: copy its value
    | DrainNext(b: Bulk<T>, results: seq<T>, entry: Id, i: nat)    // go to its successor
    | DrainDelete(b: Bulk<T>, results: seq<T>, entry: Id, i: nat, doomed: Id)  // free it
    | DeleteOld(b: Bulk<T>, results: seq<T>)  // free the old dummy
    | GotMany(b: Bulk<T>, results: seq<T>)    // return true

  /** `own` lists the nodes only this thread can reach: the new entries of a push, or the
      nodes a pop has detached. `got` records the values a pop has removed. For a pop both
      are history: no statement reads them. */
  datatype Thread<T> = Thread(pc: Pc<T>, own: seq<Id>, got: seq<T>)

  datatype Owner = InQueue | Held(t: nat)

  /** Real state: heap, ends, lock flags (with the thread that set them), length counter,
      threads. History, read by no statement: the nodes reachable from `front`, who owns
      each node, and the values pushed and popped so far. */
  datatype State<T> = State(
    heap: map<Id, Node<T>>, front: Id, back: Id,
    pushing: Option<nat>, popping: Option<nat>, length: nat,
    threads: seq<Thread<T>>,
    chain: seq<Id>, owner: map<Id, Owner>, pushed: seq<T>, popped: seq<T>)

  /** What the scheduler and the callers decide: which call an idle thread makes, and
      which free address an allocation returns. Addresses of freed nodes may return. */
  datatype Choice<T> = Go | CallPush(vals: seq<T>) | CallPop(many: bool, target: seq<T>) | Address(id: Id)

  function Init<T>(c: Config<T>, dummy: Id, threads: nat): State<T> {
    State(map[dummy := Node(c.blank, None)], dummy, dummy, None, None, 0,
          seq(threads, i => Thread(Idle, [], [])),
          [dummy], map[dummy := InQueue], [], [])
  }

  /** Choices that fit the statement: callers push non-empty vectors. */
  predicate Enabled<T>(c: Config<T>, s: State<T>, t: nat, choice: Choice<T>)
    requires t < |s.threads|
  {
    match s.threads[t].pc
    case Idle =>
      (choice.CallPush? && 0 < |choice.vals| <= c.maxBatch) || choice.CallPop?
    case Alloc(_) => choice.Address? && choice.id !in s.heap
    case _ => choice.Go?
  }

  /** A pointer that may be followed: to a node that is live and has a successor. */
  predicate HasNext<T>(heap: map<Id, Node<T>>, x: Id) {
    x in heap && heap[x].next.Some?
  }

  /** The next statement of thread `t` dereferences and deletes live nodes only, follows
      no null pointer, and indexes its vectors in range. */
  predicate Safe<T>(c: Config<T>, s: State<T>, t: nat)
    requires t < |s.threads|
  {
    var own := s.threads[t].own;
    match s.threads[t].pc
    case Alloc(vals) => |own| < |vals|
    case Tie(_) => |own| >= 2 && own[|own| - 2] in s.heap
    case Link(_) => |own| >= 1 && s.back in s.heap
    case Test(_, _) => s.front in s.heap
    case Advance(_) => HasNext(s.heap, s.front) && s.heap[s.front].next.value in s.heap
    case Copy(_) => s.front in s.heap
    case DeleteOne(prior, _) => prior in s.heap
    case WalkTest(_, _, _) => s.front in s.heap
    case WalkHop(_, _, _) => HasNext(s.heap, s.front) && s.heap[s.front].next.value in s.heap
    case SaveNew(_, _, _) => s.front in s.heap
    case Enter(b, _) => HasNext(s.heap, b.prior)
    case DrainCopy(_, result, entry, i) => entry in s.heap && i < |result|
    case DrainNext(_, _, entry, _) => HasNext(s.heap, entry)
    case DrainDelete(_, _, _, _, doomed) => doomed in s.heap
    case DeleteOld(b, result) => b.prior in s.heap && |result| >= 1
    case _ => true
  }

  function Last<X>(s: seq<X>): X
    requires s != []
  {
    s[|s| - 1]
  }

  /** The vector after resize(n): kept values first, blanks after. */
  function Resized<T>(target: seq<T>, n: nat, blank: T): (r: seq<T>)
    ensures |r| == n
  {
    seq(n, i requires 0 <= i < n => if i < |target| then target[i] else blank)
  }

  /** The vector a bulk pop returns: the corrected variant fills the last slot. */
  function Finished<T>(b: Bulk<T>, results: seq<T>): seq<T> {
    if b.last.Some? && results != [] then results[|results| - 1 := b.last.value] else results
  }

  function SetNext<T>(heap: map<Id, Node<T>>, x: Id, y: Id): map<Id, Node<T>>
    requires x in heap
  {
    heap[x := heap[x].(next := Some(y))]
  }

  function Give(owner: map<Id, Owner>, ids: seq<Id>, o: Owner): map<Id, Owner> {
    map x | x in owner.Keys + (set y | y in ids) :: if x in ids then o else owner[x]
  }

  function AfterAlloc<T>(vals: seq<T>, n: nat): Pc<T> {
    if n == |vals| then AcquirePush(vals) else Alloc(vals)
  }

  function Put<T>(s: State<T>, t: nat, th: Thread<T>): (r: State<T>)
    requires t < |s.threads|
    ensures |r.threads| == |s.threads|
  {
    s.(threads := s.threads[t := th])
  }

  function Goto<T>(s: State<T>, t: nat, pc: Pc<T>): (r: State<T>)
    requires t < |s.threads|
    ensures |r.threads| == |s.threads|
  {
    Put(s, t, s.threads[t].(pc := pc))
  }

  function DoAlloc<T>(s: State<T>, t: nat, vals: seq<T>, id: Id): State<T>
    requires t < |s.threads| && |s.threads[t].own| < |vals|
  {
    var own := s.threads[t].own;
    var pc := if own == [] then AfterAlloc(vals, 1) else Tie(vals);
    Put(s.(heap := s.heap[id := Node(vals[|own|], None)], owner := s.owner[id := Held(t)]),
        t, Thread(pc, own + [id], []))
  }

  function DoTie<T>(s: State<T>, t: nat, vals: seq<T>): State<T>
    requires t < |s.threads| && |s.threads[t].own| >= 2
    requires s.threads[t].own[|s.threads[t].own| - 2] in s.heap
  {
    var own := s.threads[t].own;
    Goto(s.(heap := SetNext(s.heap, own[|own| - 2], Last(own))), t, AfterAlloc(vals, |own|))
  }

  function DoLink<T>(s: State<T>, t: nat, vals: seq<T>): State<T>
    requires t < |s.threads| && |s.threads[t].own| >= 1 && s.back in s.heap
  {
    var own := s.threads[t].own;
    Put(s.(heap := SetNext(s.heap, s.back, own[0]),
           chain := s.chain + own, owner := Give(s.owner, own, InQueue), pushed := s.pushed + vals),
        t, Thread(SwingBack(Last(own), |own|), [], []))
  }

  function Tail<X>(s: seq<X>): seq<X> {
    if s == [] then [] else s[1..]
  }

  /** The sequence without its `k`-th member. */
  function Except<X>(s: seq<X>, k: nat): seq<X> {
    if k < |s| then s[..k] + s[k + 1..] else s
  }

  /** The front moves on; the node it leaves is the thread's from now on. */
  function Detach<T>(s: State<T>, t: nat, pc: Pc<T>): State<T>
    requires t < |s.threads| && HasNext(s.heap, s.front) && s.heap[s.front].next.value in s.heap
  {
    var newFront := s.heap[s.front].next.value;
    var value := s.heap[newFront].value;
    var th := s.threads[t];
    Put(s.(front := newFront, chain := Tail(s.chain), owner := s.owner[s.front := Held(t)],
      popped := s.popped + [value]),
        t, Thread(pc, th.own + [s.front], th.got + [value]))
  }

  /** Deletes node `x`, which is the thread's `k`-th. */
  function Delete<T>(s: State<T>, t: nat, x: Id, k: nat, pc: Pc<T>): State<T>
    requires t < |s.threads|
  {
    var th := s.threads[t];
    Put(s.(heap := s.heap - {x}, owner := s.owner - {x}), t, Thread(pc, Except(th.own, k), th.got))
  }

  predicate IsPush<T>(pc: Pc<T>) {
    pc.Gate? || pc.Alloc? || pc.Tie? || pc.AcquirePush? || pc.Link? || pc.SwingBack? || pc.ReleasePush? || pc.CountUp?
  }

  predicate IsPop<T>(pc: Pc<T>) {
    pc.AcquirePop? || pc.Test? || pc.ReleaseEmpty? || pc.Save?
    || pc.Advance? || pc.Copy? || pc.ReleaseOne? || pc.DeleteOne? || pc.CountDown?
    || pc.WalkTest? || pc.WalkHop? || pc.CountMany? || pc.SaveNew? || pc.ReleaseMany?
  }

  predicate IsDrain<T>(pc: Pc<T>) {
    pc.Resize? || pc.Enter? || pc.DrainTest? || pc.DrainCopy? || pc.DrainNext? || pc.DrainDelete? || pc.DeleteOld?
  }

  /** The statements of both PushBack. */
  function PushStep<T>(c: Config<T>, s: State<T>, t: nat, choice: Choice<T>): (r: State<T>)
    requires t < |s.threads| && Enabled(c, s, t, choice) && Safe(c, s, t) && IsPush(s.threads[t].pc)
    ensures |r.threads| == |s.threads|
  {
    match s.threads[t].pc
    case Gate(vals) =>
      if s.length > c.maxLength then s else Goto(s, t, Alloc(vals))
    case Alloc(vals) => DoAlloc(s, t, vals, choice.id)
    case Tie(vals) => DoTie(s, t, vals)
    case AcquirePush(vals) =>
      if s.pushing.Some? then s else Goto(s.(pushing := Some(t)), t, Link(vals))
    case Link(vals) => DoLink(s, t, vals)
    case SwingBack(tail, n) => Goto(s.(back := tail), t, ReleasePush(n))
    case ReleasePush(n) => Goto(s.(pushing := None), t, CountUp(n))
    case CountUp(n) => Goto(s.(length := (s.length + n) % TWO_TO_64), t, Idle)
  }

  /** The statements of both PopFront up to the release of the lock, and all of the
      single one. */
  function PopStep<T>(c: Config<T>, s: State<T>, t: nat, choice: Choice<T>): (r: State<T>)
    requires t < |s.threads| && Enabled(c, s, t, choice) && Safe(c, s, t) && IsPop(s.threads[t].pc)
    ensures |r.threads| == |s.threads|
  {
    match s.threads[t].pc
    case AcquirePop(many, target) =>
      if s.popping.Some? then s else Goto(s.(popping := Some(t)), t, Test(many, target))
    case Test(many, target) =>
      Goto(s, t, if s.heap[s.front].next.Some? then Save(many, target) else ReleaseEmpty)
    case ReleaseEmpty => Goto(s.(popping := None), t, Idle)
    case Save(many, target) =>
      Goto(s, t, if many then WalkTest(s.front, 0, target) else Advance(s.front))
    case Advance(prior) => Detach(s, t, Copy(prior))
    case Copy(prior) => Goto(s, t, ReleaseOne(prior, s.heap[s.front].value))
    case ReleaseOne(prior, result) => Goto(s.(popping := None), t, DeleteOne(prior, result))
    case DeleteOne(prior, result) => Delete(s, t, prior, 0, CountDown(result))
    case CountDown(result) => Goto(s.(length := (s.length - 1) % TWO_TO_64), t, GotOne(result))
    case WalkTest(prior, n, target) =>
      Goto(s, t, if s.heap[s.front].next.Some? then WalkHop(prior, n, target) else CountMany(prior, n, target))
    case WalkHop(prior, n, target) => Detach(s, t, WalkTest(prior, n + 1, target))
    case CountMany(prior, n, target) => Goto(s.(length := (s.length - n) % TWO_TO_64), t, SaveNew(prior, n, target))
    case SaveNew(prior, n, target) =>
      var last := if c.copiesLast then Some(s.heap[s.front].value) else None;
      Goto(s, t, ReleaseMany(Bulk(prior, s.front, n, target, last)))
    case ReleaseMany(b) => Goto(s.(popping := None), t, Resize(b))
  }

  /** The statements of the bulk PopFront after the release of the lock. */
  function DrainStep<T>(c: Config<T>, s: State<T>, t: nat, choice: Choice<T>): (r: State<T>)
    requires t < |s.threads| && Enabled(c, s, t, choice) && Safe(c, s, t) && IsDrain(s.threads[t].pc)
    ensures |r.threads| == |s.threads|
  {
    match s.threads[t].pc
    case Resize(b) => Goto(s, t, Enter(b, Resized(b.target, b.n, c.blank)))
    case Enter(b, result) => Goto(s, t, DrainTest(b, result, s.heap[b.prior].next.value, 0))
    case DrainTest(b, result, entry, i) =>
      Goto(s, t, if entry != b.newFront then DrainCopy(b, result, entry, i) else DeleteOld(b, result))
    case DrainCopy(b, result, entry, i) =>
      Goto(s, t, DrainNext(b, result[i := s.heap[entry].value], entry, i))
    case DrainNext(b, result, entry, i) =>
      Goto(s, t, DrainDelete(b, result, s.heap[entry].next.value, i + 1, entry))
    case DrainDelete(b, result, entry, i, doomed) => Delete(s, t, doomed, 1, DrainTest(b, result, entry, i))
    case DeleteOld(b, result) =>
      Delete(s, t, b.prior, 0, GotMany(b, Finished(b, result)))
  }

  /** One statement of thread `t`. A thread that finds a flag set, or the queue too long,
      stays where it is; a thread between calls may make any call, or returns from one. */
  function Step<T>(c: Config<T>, s: State<T>, t: nat, choice: Choice<T>): (r: State<T>)
    requires t < |s.threads| && Enabled(c, s, t, choice) && Safe(c, s, t)
    ensures |r.threads| == |s.threads|
  {
    var pc := s.threads[t].pc;
    if IsPush(pc) then PushStep(c, s, t, choice)
    else if IsPop(pc) then PopStep(c, s, t, choice)
    else if IsDrain(pc) then DrainStep(c, s, t, choice)
    else if choice.CallPush? then Put(s, t, Thread(Gate(choice.vals), [], []))
    else if choice.CallPop? then Put(s, t, Thread(AcquirePop(choice.many, choice.target), [], []))
    else Goto(s, t, Idle)
  }

  /** The states reached by a sequence of scheduled statements. */
  ghost predicate Reaches<T>(c: Config<T>, s: State<T>, schedule: seq<(nat, Choice<T>)>, r: State<T>)
    decreases |schedule|
  {
    if schedule == [] then
      r == s
    else
      var (t, choice) := schedule[0];
      && t < |s.threads| && Enabled(c, s, t, choice) && Safe(c, s, t)
      && Reaches(c, Step(c, s, t, choice), schedule[1..], r)
  }
}
