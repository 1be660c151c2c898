/** Every statement of every thread keeps the queue's invariant. */
module QueueSteps {
  import opened Bytes
  import opened ConcurrentQueue
  import opened QueueInvariant

  /** A thread's locals stay right while others leave its nodes alone, keep the front in
      place if it holds the pop lock, and keep the tail if it has just linked it. */
  lemma LocalFrame<T>(c: Config<T>, th: Thread<T>, heap: map<Id, Node<T>>, chain: seq<Id>, heap': map<Id, Node<T>>,
          chain': seq<Id>)
    requires chain != [] && chain' != [] && LocalOk(c, th, heap, chain)
    requires forall i {:trigger th.own[i]} :: 0 <= i < |th.own| ==> Same(heap, heap', th.own[i])
    requires InPop(th.pc) ==> FrontKept(heap, chain, heap', chain')
    requires th.pc.SwingBack? ==> Last(chain') == Last(chain)
    ensures LocalOk(c, th, heap', chain')
  {
    PointsToFrame(heap, heap', Tied(th), End(th, chain[0]));
    HoldsFrame(heap, heap', Holding(th), Spoken(th));
    if th.pc.Tie? {
      assert Same(heap, heap', th.own[|th.own| - 1]);
    }
  }

  ghost predicate Same<T>(heap: map<Id, Node<T>>, heap': map<Id, Node<T>>, x: Id) {
    x in heap && x in heap' && heap'[x] == heap[x]
  }

  ghost predicate FrontKept<T>(heap: map<Id, Node<T>>, chain: seq<Id>, heap': map<Id, Node<T>>, chain': seq<Id>)
    requires chain != [] && chain' != []
  {
    && chain'[0] == chain[0] && |chain'| >= |chain|
    && chain[0] in heap && chain[0] in heap' && heap'[chain[0]].value == heap[chain[0]].value
  }

  lemma PointsToFrame<T>(heap: map<Id, Node<T>>, heap': map<Id, Node<T>>, ids: seq<Id>, end: Option<Id>)
    requires PointsTo(heap, ids, end)
    requires forall i {:trigger ids[i]} :: 0 <= i < |ids| ==> Same(heap, heap', ids[i])
    ensures PointsTo(heap', ids, end)
  {
    forall i | 0 <= i < |ids| ensures ids[i] in heap' && heap'[ids[i]].next == Successor(ids, i, end) {
      assert heap'[ids[i]] == heap[ids[i]];
    }
  }

  lemma HoldsFrame<T>(heap: map<Id, Node<T>>, heap': map<Id, Node<T>>, ids: seq<Id>, vals: seq<T>)
    requires Holds(heap, ids, vals)
    requires forall i {:trigger ids[i]} :: 0 <= i < |ids| ==> Same(heap, heap', ids[i])
    ensures Holds(heap', ids, vals)
  {
    forall i | 0 <= i < |ids| ensures heap'[ids[i]].value == vals[i] {
      assert heap[ids[i]].value == vals[i];
    }
  }


  /** What may change when a statement touches no node: the locals of one thread, the
      locks, the counter, and where `back` points. */
  ghost predicate OnlyThread<T>(s: State<T>, s': State<T>, t: nat) {
    && |s'.threads| == |s.threads| && t < |s.threads|
    && forall u :: 0 <= u < |s.threads| && u != t ==> s'.threads[u] == s.threads[u]
  }

  ghost predicate Quiet<T>(s: State<T>, s': State<T>, t: nat) {
    && OnlyThread(s, s', t)
    && s'.heap == s.heap && s'.front == s.front && s'.chain == s.chain && s'.owner == s.owner
    && s'.pushed == s.pushed && s'.popped == s.popped
    && s'.threads[t].own == s.threads[t].own
  }

  lemma QuietKeepsInv<T>(c: Config<T>, s: State<T>, s': State<T>, t: nat)
    requires Inv(c, s) && Quiet(s, s', t)
    requires LocalOk(c, s'.threads[t], s.heap, s.chain)
    requires Locked(s') && Chained(s')
    ensures Inv(c, s')
  {
    forall u | 0 <= u < |s'.threads| ensures LocalOk(c, s'.threads[u], s'.heap, s'.chain) {
      if u != t {
        assert LocalOk(c, s.threads[u], s.heap, s.chain);
      }
    }
    forall u | 0 <= u < |s'.threads| ensures OwnsExactly(s'.owner, s'.threads[u].own, u) {
      assert OwnsExactly(s.owner, s.threads[u].own, u);
    }
  }

  /** Moving a thread on without touching nodes or locks. */
  lemma MoveKeepsInv<T>(c: Config<T>, s: State<T>, t: nat, th: Thread<T>, length: nat)
    requires Inv(c, s) && t < |s.threads| && th.own == s.threads[t].own
    requires InPush(th.pc) == InPush(s.threads[t].pc) && InPop(th.pc) == InPop(s.threads[t].pc)
    requires !s.threads[t].pc.SwingBack?
    ensures LocalOk(c, th, s.heap, s.chain) ==> Inv(c, Put(s, t, th).(length := length))
  {
    var s' := Put(s, t, th).(length := length);
    forall u | 0 <= u < |s'.threads|
      ensures InPush(s'.threads[u].pc) <==> s'.pushing == Some(u)
      ensures InPop(s'.threads[u].pc) <==> s'.popping == Some(u)
    {
      if u != t {
        assert s'.threads[u] == s.threads[u];
      }
    }
    if LocalOk(c, th, s.heap, s.chain) {
      QuietKeepsInv(c, s, s', t);
    }
  }

  /** A statement of thread `t` that is enabled in a good state. */
  ghost predicate Ready<T>(c: Config<T>, s: State<T>, t: nat, choice: Choice<T>) {
    Inv(c, s) && t < |s.threads| && Enabled(c, s, t, choice) && Safe(c, s, t)
  }

  /** The next pc, where it depends on the thread, the front and the heap alone. */
  function Onward<T>(c: Config<T>, pc: Pc<T>, heap: map<Id, Node<T>>, front: Id): Pc<T> {
    match pc
    case Test(many, target) => if HasNext(heap, front) then Save(many, target) else ReleaseEmpty
    case Save(many, target) => if many then WalkTest(front, 0, target) else Advance(front)
    case Copy(prior) => if front in heap then ReleaseOne(prior, heap[front].value) else pc
    case CountDown(result) => GotOne(result)
    case WalkTest(prior, n, target) =>
      if HasNext(heap, front) then WalkHop(prior, n, target) else CountMany(prior, n, target)
    case CountMany(prior, n, target) => SaveNew(prior, n, target)
    case SaveNew(prior, n, target) =>
      if front in heap then
        ReleaseMany(Bulk(prior, front, n, target, if c.copiesLast then Some(heap[front].value) else None))
      else pc
    case _ => pc
  }

  lemma OnwardLocal<T>(c: Config<T>, th: Thread<T>, heap: map<Id, Node<T>>, chain: seq<Id>)
    requires chain != [] && PointsTo(heap, chain, None) && LocalOk(c, th, heap, chain)
    requires th.pc.Test? || th.pc.Save? || th.pc.CountDown?
    ensures LocalOk(c, th.(pc := Onward(c, th.pc, heap, chain[0])), heap, chain)
  {
    assert heap[chain[0]].next == Successor(chain, 0, None);
  }

  lemma OnwardLocalWithValue<T>(c: Config<T>, th: Thread<T>, heap: map<Id, Node<T>>, chain: seq<Id>)
    requires chain != [] && PointsTo(heap, chain, None) && LocalOk(c, th, heap, chain)
    requires th.pc.Copy? || th.pc.WalkTest? || th.pc.CountMany?
    ensures LocalOk(c, th.(pc := Onward(c, th.pc, heap, chain[0])), heap, chain)
  {
    assert heap[chain[0]].next == Successor(chain, 0, None);
  }

  lemma SaveNewLocal<T>(c: Config<T>, th: Thread<T>, heap: map<Id, Node<T>>, chain: seq<Id>)
    requires chain != [] && chain[0] in heap && LocalOk(c, th, heap, chain)
    requires th.pc.SaveNew? && chain[0] !in th.own
    ensures LocalOk(c, th.(pc := Onward(c, th.pc, heap, chain[0])), heap, chain)
  {
    assert (th.own + [chain[0]])[0] == th.own[0];
  }

  lemma NotOwned<T>(s: State<T>, t: nat)
    requires Ownership(s) && t < |s.threads| && s.chain != []
    ensures s.chain[0] !in s.threads[t].own
  {
    assert OwnsExactly(s.owner, s.threads[t].own, t);
    assert s.owner[s.chain[0]] == InQueue;
  }

  predicate ReadsOnly<T>(pc: Pc<T>) {
    pc.Test? || pc.Save? || pc.Copy? || pc.CountDown? || pc.WalkTest? || pc.CountMany? || pc.SaveNew?
  }

  /** A pop statement that only reads is the move to the next pc, and perhaps a count. */
  lemma OnwardIsStep<T>(c: Config<T>, s: State<T>, t: nat, choice: Choice<T>)
    requires t < |s.threads| && Enabled(c, s, t, choice) && Safe(c, s, t) && ReadsOnly(s.threads[t].pc)
    ensures var s' := PopStep(c, s, t, choice);
            s' == Put(s, t, s.threads[t].(pc := Onward(c, s.threads[t].pc, s.heap, s.front))).(length := s'.length)
  {
  }

  lemma OnwardLocks<T>(c: Config<T>, pc: Pc<T>, heap: map<Id, Node<T>>, front: Id)
    requires ReadsOnly(pc)
    ensures InPop(Onward(c, pc, heap, front)) == InPop(pc) && !InPush(Onward(c, pc, heap, front)) && !InPush(pc)
  {
  }

  lemma ReadsOnlyLocal<T>(c: Config<T>, s: State<T>, t: nat)
    requires Ownership(s) && Chained(s) && t < |s.threads| && ReadsOnly(s.threads[t].pc)
    requires LocalOk(c, s.threads[t], s.heap, s.chain)
    ensures LocalOk(c, s.threads[t].(pc := Onward(c, s.threads[t].pc, s.heap, s.front)), s.heap, s.chain)
  {
    var th := s.threads[t];
    if th.pc.SaveNew? {
      NotOwned(s, t);
      SaveNewLocal(c, th, s.heap, s.chain);
    } else if th.pc.Copy? || th.pc.WalkTest? || th.pc.CountMany? {
      OnwardLocalWithValue(c, th, s.heap, s.chain);
    } else {
      OnwardLocal(c, th, s.heap, s.chain);
    }
  }

  lemma OnwardSteps<T>(c: Config<T>, s: State<T>, t: nat, choice: Choice<T>)
    requires Ready(c, s, t, choice) && ReadsOnly(s.threads[t].pc)
    ensures Inv(c, PopStep(c, s, t, choice))
  {
    var th := s.threads[t];
    ReadsOnlyLocal(c, s, t);
    OnwardIsStep(c, s, t, choice);
    OnwardLocks(c, th.pc, s.heap, s.front);
    MoveKeepsInv(c, s, t, th.(pc := Onward(c, th.pc, s.heap, s.front)), PopStep(c, s, t, choice).length);
  }

  /** The next pc of a statement that sets or clears a lock flag, or moves `back`. */
  function Past<T>(pc: Pc<T>): Pc<T> {
    match pc
    case AcquirePush(vals) => Link(vals)
    case SwingBack(_, n) => ReleasePush(n)
    case ReleasePush(n) => CountUp(n)
    case AcquirePop(many, target) => Test(many, target)
    case ReleaseEmpty => Idle
    case ReleaseOne(prior, result) => DeleteOne(prior, result)
    case ReleaseMany(b) => Resize(b)
    case _ => pc
  }

  predicate AtLock<T>(pc: Pc<T>) {
    pc.AcquirePush? || pc.SwingBack? || pc.ReleasePush? || pc.AcquirePop? || pc.ReleaseEmpty? || pc.ReleaseOne?
      || pc.ReleaseMany?
  }

  /** Two stages of a call that look at the same nodes and values. */
  ghost predicate SameView<T>(th: Thread<T>, th': Thread<T>, front: Id) {
    Tied(th') == Tied(th) && End(th', front) == End(th, front) && Holding(th') == Holding(th)
      && Spoken(th') == Spoken(th)
  }

  lemma SameViewLocal<T>(c: Config<T>, th: Thread<T>, th': Thread<T>, heap: map<Id, Node<T>>, chain: seq<Id>)
    requires chain != [] && LocalOk(c, th, heap, chain)
    requires SameView(th, th', chain[0]) && Shape(c, th', chain)
    requires !th'.pc.Copy? && !Walking(th'.pc) && !th'.pc.Tie?
    ensures LocalOk(c, th', heap, chain)
  {
  }

  lemma PastView<T>(th: Thread<T>, front: Id)
    requires AtLock(th.pc)
    ensures var pc := Past(th.pc); SameView(th, th.(pc := pc), front) && !pc.Copy? && !Walking(pc) && !pc.Tie?
  {
  }

  lemma PastShape<T>(c: Config<T>, th: Thread<T>, chain: seq<Id>)
    requires chain != [] && AtLock(th.pc) && Shape(c, th, chain)
    ensures Shape(c, th.(pc := Past(th.pc)), chain)
  {
  }

  lemma PastLocal<T>(c: Config<T>, th: Thread<T>, heap: map<Id, Node<T>>, chain: seq<Id>)
    requires chain != [] && AtLock(th.pc) && LocalOk(c, th, heap, chain)
    ensures LocalOk(c, th.(pc := Past(th.pc)), heap, chain)
  {
    PastView(th, chain[0]);
    PastShape(c, th, chain);
    SameViewLocal(c, th, th.(pc := Past(th.pc)), heap, chain);
  }

  function AtLocks<T>(s: State<T>, t: nat, pc: Pc<T>, pushing: Option<nat>, popping: Option<nat>, back: Id): State<T>
    requires t < |s.threads|
  {
    Goto(s, t, pc).(pushing := pushing, popping := popping, back := back)
  }

  lemma PastIsPushStep<T>(c: Config<T>, s: State<T>, t: nat, choice: Choice<T>)
    requires t < |s.threads| && Enabled(c, s, t, choice) && Safe(c, s, t)
    requires AtLock(s.threads[t].pc) && IsPush(s.threads[t].pc)
    ensures var pc := s.threads[t].pc;
            PushStep(c, s, t, choice) ==
            if pc.AcquirePush? && s.pushing.Some? then s
            else
              AtLocks(s, t, Past(pc), if pc.ReleasePush? then None else if pc.AcquirePush? then Some(t) else s.pushing,
                      s.popping, if pc.SwingBack? then pc.tail else s.back)
  {
  }

  lemma PastIsPopStep<T>(c: Config<T>, s: State<T>, t: nat, choice: Choice<T>)
    requires t < |s.threads| && Enabled(c, s, t, choice) && Safe(c, s, t)
    requires AtLock(s.threads[t].pc) && IsPop(s.threads[t].pc)
    ensures var pc := s.threads[t].pc;
            PopStep(c, s, t, choice) ==
            if pc.AcquirePop? && s.popping.Some? then s
            else AtLocks(s, t, Past(pc), s.pushing, if pc.AcquirePop? then Some(t) else None, s.back)
  {
  }

  /** Taking a free lock, or giving up one's own. */
  ghost predicate LockMoves(lock: Option<nat>, lock': Option<nat>, t: nat) {
    lock' == lock || ((lock == None || lock == Some(t)) && (lock' == None || lock' == Some(t)))
  }

  lemma LocksStay<T>(s: State<T>, s': State<T>, t: nat)
    requires Locked(s) && OnlyThread(s, s', t)
    requires LockMoves(s.pushing, s'.pushing, t) && LockMoves(s.popping, s'.popping, t)
    requires InPush(s'.threads[t].pc) <==> s'.pushing == Some(t)
    requires InPop(s'.threads[t].pc) <==> s'.popping == Some(t)
    ensures Locked(s')
  {
    forall u | 0 <= u < |s'.threads|
      ensures InPush(s'.threads[u].pc) <==> s'.pushing == Some(u)
      ensures InPop(s'.threads[u].pc) <==> s'.popping == Some(u)
    {
      if u != t {
        assert s'.threads[u] == s.threads[u];
      }
    }
  }

  lemma AtLocksChained<T>(s: State<T>, t: nat, pc: Pc<T>, pushing: Option<nat>, popping: Option<nat>, back: Id)
    requires Chained(s) && t < |s.threads|
    requires back == Last(s.chain) || (!s.threads[t].pc.SwingBack? && back == s.back && pushing == s.pushing)
    ensures Chained(AtLocks(s, t, pc, pushing, popping, back))
  {
  }

  lemma AtLocksKeepsInv<T>(c: Config<T>, s: State<T>, t: nat, pc: Pc<T>, pushing: Option<nat>, popping: Option<nat>,
          back: Id)
    requires Inv(c, s) && t < |s.threads|
    requires LockMoves(s.pushing, pushing, t) && LockMoves(s.popping, popping, t)
    requires (InPush(pc) <==> pushing == Some(t)) && (InPop(pc) <==> popping == Some(t))
    requires back == Last(s.chain) || (!s.threads[t].pc.SwingBack? && back == s.back && pushing == s.pushing)
    ensures LocalOk(c, s.threads[t].(pc := pc), s.heap, s.chain) ==> Inv(c, AtLocks(s, t, pc, pushing, popping, back))
  {
    var s' := AtLocks(s, t, pc, pushing, popping, back);
    LocksStay(s, s', t);
    AtLocksChained(s, t, pc, pushing, popping, back);
    if LocalOk(c, s.threads[t].(pc := pc), s.heap, s.chain) {
      QuietKeepsInv(c, s, s', t);
    }
  }

  lemma PushLockSteps<T>(c: Config<T>, s: State<T>, t: nat, choice: Choice<T>)
    requires Ready(c, s, t, choice) && AtLock(s.threads[t].pc) && IsPush(s.threads[t].pc)
    ensures Inv(c, PushStep(c, s, t, choice))
  {
    var pc := s.threads[t].pc;
    PastIsPushStep(c, s, t, choice);
    PastLocks(pc);
    PushLockFacts(c, s, t);
    if !(pc.AcquirePush? && s.pushing.Some?) {
      AtLocksKeepsInv(c, s, t, Past(pc),
                      if pc.ReleasePush? then None else if pc.AcquirePush? then Some(t) else s.pushing,
                      s.popping, if pc.SwingBack? then pc.tail else s.back);
    }
  }

  lemma PastLocks<T>(pc: Pc<T>)
    requires AtLock(pc)
    ensures InPush(Past(pc)) <==> pc.AcquirePush? || pc.SwingBack?
    ensures InPop(Past(pc)) <==> pc.AcquirePop?
  {
  }

  lemma PushLockFacts<T>(c: Config<T>, s: State<T>, t: nat)
    requires Inv(c, s) && t < |s.threads| && AtLock(s.threads[t].pc) && IsPush(s.threads[t].pc)
    ensures var pc := s.threads[t].pc;
            && (pc.SwingBack? ==> pc.tail == Last(s.chain))
            && (!pc.SwingBack? && (s.pushing == None || s.pushing == Some(t)) ==> s.back == Last(s.chain))
            && (!pc.AcquirePush? ==> s.pushing == Some(t))
            && s.popping != Some(t)
            && LocalOk(c, s.threads[t].(pc := Past(pc)), s.heap, s.chain)
  {
    assert LocalOk(c, s.threads[t], s.heap, s.chain);
    PastLocal(c, s.threads[t], s.heap, s.chain);
  }

  lemma PopLockFacts<T>(c: Config<T>, s: State<T>, t: nat)
    requires Inv(c, s) && t < |s.threads| && AtLock(s.threads[t].pc) && IsPop(s.threads[t].pc)
    ensures !s.threads[t].pc.AcquirePop? ==> s.popping == Some(t)
    ensures s.pushing != Some(t)
    ensures LocalOk(c, s.threads[t].(pc := Past(s.threads[t].pc)), s.heap, s.chain)
  {
    PastLocal(c, s.threads[t], s.heap, s.chain);
  }

  lemma PopLockSteps<T>(c: Config<T>, s: State<T>, t: nat, choice: Choice<T>)
    requires Ready(c, s, t, choice) && AtLock(s.threads[t].pc) && IsPop(s.threads[t].pc)
    ensures Inv(c, PopStep(c, s, t, choice))
  {
    var pc := s.threads[t].pc;
    PastIsPopStep(c, s, t, choice);
    PastLocks(pc);
    PopLockFacts(c, s, t);
    if !(pc.AcquirePop? && s.popping.Some?) {
      AtLocksKeepsInv(c, s, t, Past(pc), s.pushing, if pc.AcquirePop? then Some(t) else None, s.back);
    }
  }
}
