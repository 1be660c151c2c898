/** What the length counter says, and how deep the queue can get. */
module QueueLength {
  import opened Bytes
  import opened ConcurrentQueue
  import opened QueueInvariant
  import opened QueueSteps
  import opened QueueRuns

  /** What one thread, or all of them, still have to settle: values removed and not yet
      subtracted from the counter, values linked and not yet added to it, and values that
      have passed the gate and are not linked yet. */
  datatype Tally = Tally(removed: nat, linked: nat, ahead: nat)

  function TallyOf<T>(pc: Pc<T>): Tally {
    match pc
    case Alloc(vals) => Tally(0, 0, |vals|)
    case Tie(vals) => Tally(0, 0, |vals|)
    case AcquirePush(vals) => Tally(0, 0, |vals|)
    case Link(vals) => Tally(0, 0, |vals|)
    case SwingBack(_, n) => Tally(0, n, 0)
    case ReleasePush(n) => Tally(0, n, 0)
    case CountUp(n) => Tally(0, n, 0)
    case Copy(_) => Tally(1, 0, 0)
    case ReleaseOne(_, _) => Tally(1, 0, 0)
    case DeleteOne(_, _) => Tally(1, 0, 0)
    case CountDown(_) => Tally(1, 0, 0)
    case WalkTest(_, n, _) => Tally(n, 0, 0)
    case WalkHop(_, n, _) => Tally(n, 0, 0)
    case CountMany(_, n, _) => Tally(n, 0, 0)
    case _ => Tally(0, 0, 0)
  }

  function Totals<T>(threads: seq<Thread<T>>): Tally {
    if threads == [] then
      Tally(0, 0, 0)
    else
      var one, rest := TallyOf(threads[0].pc), Totals(threads[1..]);
      Tally(one.removed + rest.removed, one.linked + rest.linked, one.ahead + rest.ahead)
  }

  lemma {:induction false} TotalsUpdate<T>(threads: seq<Thread<T>>, t: nat, th: Thread<T>)
    requires t < |threads|
    ensures var was, now := Totals(threads), Totals(threads[t := th]);
            var one, two := TallyOf(threads[t].pc), TallyOf(th.pc);
            && now.removed == was.removed - one.removed + two.removed
            && now.linked == was.linked - one.linked + two.linked
            && now.ahead == was.ahead - one.ahead + two.ahead
  {
    if t == 0 {
      assert threads[0 := th][1..] == threads[1..];
    } else {
      TotalsUpdate(threads[1..], t - 1, th);
      assert threads[t := th][1..] == threads[1..][t - 1 := th];
    }
  }

  /** How many values are linked behind the dummy. */
  function Depth<T>(s: State<T>): int {
    |s.chain| - 1
  }

  /** The counter, modulo 2^64, is the depth less the pushes and plus the pops that have
      happened and are not counted yet. */
  ghost predicate Counted<T>(s: State<T>) {
    s.length == (Depth(s) + Totals(s.threads).removed - Totals(s.threads).linked) % TWO_TO_64
  }

  /** No thread pushes more than the longest batch. */
  predicate BatchOk<T>(c: Config<T>, pc: Pc<T>) {
    && TallyOf(pc).linked + TallyOf(pc).ahead <= c.maxBatch
    && (pc.Gate? ==> |pc.vals| <= c.maxBatch)
  }

  function Bound<T>(c: Config<T>, threads: nat): nat {
    c.maxLength + threads * c.maxBatch
  }

  ghost predicate Bounded<T>(c: Config<T>, s: State<T>) {
    && (forall t :: 0 <= t < |s.threads| ==> BatchOk(c, s.threads[t].pc))
    && Depth(s) + Totals(s.threads).removed + Totals(s.threads).ahead <= Bound(c, |s.threads|)
  }

  lemma {:induction false} TotalsBound<T>(c: Config<T>, threads: seq<Thread<T>>)
    requires forall t :: 0 <= t < |threads| ==> BatchOk(c, threads[t].pc)
    ensures Totals(threads).linked + Totals(threads).ahead <= |threads| * c.maxBatch
  {
    if threads != [] {
      TotalsBound(c, threads[1..]);
      assert |threads| * c.maxBatch == c.maxBatch + |threads[1..]| * c.maxBatch;
    }
  }

  /** One statement changes one thread. What it does to the counter is what it does to the
      depth and to the thread's own account, and only a thread that has just seen a short
      enough queue adds to the load. */
  ghost predicate Accounted<T>(c: Config<T>, s: State<T>, s': State<T>, t: nat) {
    && t < |s.threads| == |s'.threads| && s'.threads == s.threads[t := s'.threads[t]]
    && var was, now := TallyOf(s.threads[t].pc), TallyOf(s'.threads[t].pc);
       var deeper := Depth(s') - Depth(s);
       var change := deeper + (now.removed - was.removed) - (now.linked - was.linked);
       && (s'.length == (s.length + change) % TWO_TO_64 || (s'.length == s.length && change == 0))
       && (BatchOk(c, s.threads[t].pc) ==> BatchOk(c, s'.threads[t].pc))
       && (deeper + now.removed + now.ahead <= was.removed + was.ahead
           || (s.length <= c.maxLength && deeper == 0 && now.removed == was.removed && now.linked == was.linked
               && s'.length == s.length))
  }

  lemma PushAccounts<T>(c: Config<T>, s: State<T>, t: nat, choice: Choice<T>)
    requires t < |s.threads| && Enabled(c, s, t, choice) && Safe(c, s, t) && IsPush(s.threads[t].pc)
    requires s.chain != [] && Shape(c, s.threads[t], s.chain)
    ensures Accounted(c, s, PushStep(c, s, t, choice), t)
  {
  }

  lemma DetachAccounts<T>(c: Config<T>, s: State<T>, t: nat, choice: Choice<T>)
    requires t < |s.threads| && Enabled(c, s, t, choice) && Safe(c, s, t)
    requires s.threads[t].pc.Advance? || s.threads[t].pc.WalkHop?
    requires |s.chain| >= 2
    ensures Accounted(c, s, PopStep(c, s, t, choice), t)
  {
  }

  lemma OnwardTally<T>(c: Config<T>, pc: Pc<T>, heap: map<Id, Node<T>>, front: Id)
    requires ReadsOnly(pc)
    ensures var was, now := TallyOf(pc), TallyOf(Onward(c, pc, heap, front));
            && now == Tally(if pc.CountDown? || pc.CountMany? then 0 else was.removed, 0, 0)
            && was == Tally(was.removed, 0, 0)
    ensures !Onward(c, pc, heap, front).Gate?
  {
  }

  lemma OnwardLength<T>(c: Config<T>, s: State<T>, t: nat, choice: Choice<T>)
    requires t < |s.threads| && Enabled(c, s, t, choice) && Safe(c, s, t) && ReadsOnly(s.threads[t].pc)
    ensures var pc := s.threads[t].pc;
            PopStep(c, s, t, choice).length
            == if pc.CountDown? || pc.CountMany? then (s.length - TallyOf(pc).removed) % TWO_TO_64 else s.length
  {
  }

  lemma ReadAccounts<T>(c: Config<T>, s: State<T>, t: nat, choice: Choice<T>)
    requires t < |s.threads| && Enabled(c, s, t, choice) && Safe(c, s, t) && ReadsOnly(s.threads[t].pc)
    ensures Accounted(c, s, PopStep(c, s, t, choice), t)
  {
    hide PopStep, Onward, TallyOf, Safe, Enabled;
    OnwardIsStep(c, s, t, choice);
    OnwardTally(c, s.threads[t].pc, s.heap, s.front);
    OnwardLength(c, s, t, choice);
  }

  lemma LockAccounts<T>(c: Config<T>, s: State<T>, t: nat, choice: Choice<T>)
    requires t < |s.threads| && Enabled(c, s, t, choice) && Safe(c, s, t) && IsPop(s.threads[t].pc)
    requires !ReadsOnly(s.threads[t].pc) && !s.threads[t].pc.Advance? && !s.threads[t].pc.WalkHop?
    ensures Accounted(c, s, PopStep(c, s, t, choice), t)
  {
    hide Except;
  }

  lemma PopAccounts<T>(c: Config<T>, s: State<T>, t: nat, choice: Choice<T>)
    requires t < |s.threads| && Enabled(c, s, t, choice) && Safe(c, s, t) && IsPop(s.threads[t].pc)
    requires s.chain != [] && Shape(c, s.threads[t], s.chain)
    ensures Accounted(c, s, PopStep(c, s, t, choice), t)
  {
    hide PopStep, Accounted, Safe, Enabled, IsPop;
    if s.threads[t].pc.Advance? || s.threads[t].pc.WalkHop? {
      DetachAccounts(c, s, t, choice);
    } else if ReadsOnly(s.threads[t].pc) {
      ReadAccounts(c, s, t, choice);
    } else {
      LockAccounts(c, s, t, choice);
    }
  }

  lemma DrainAccounts<T>(c: Config<T>, s: State<T>, t: nat, choice: Choice<T>)
    requires t < |s.threads| && Enabled(c, s, t, choice) && Safe(c, s, t) && IsDrain(s.threads[t].pc)
    ensures Accounted(c, s, DrainStep(c, s, t, choice), t)
  {
  }

  lemma CallAccounts<T>(c: Config<T>, s: State<T>, t: nat, choice: Choice<T>)
    requires t < |s.threads| && Enabled(c, s, t, choice) && Safe(c, s, t) && BetweenCalls(s.threads[t].pc)
    ensures Accounted(c, s, Step(c, s, t, choice), t)
  {
    CallIsStep(c, s, t, choice);
  }

  lemma StepAccounts<T>(c: Config<T>, s: State<T>, t: nat, choice: Choice<T>)
    requires Ready(c, s, t, choice)
    ensures Accounted(c, s, Step(c, s, t, choice), t)
  {
    var pc := s.threads[t].pc;
    ShapeOf(c, s, t);
    if IsPush(pc) {
      PushAccounts(c, s, t, choice);
    } else if IsPop(pc) {
      PopAccounts(c, s, t, choice);
    } else if IsDrain(pc) {
      DrainAccounts(c, s, t, choice);
    } else {
      CallAccounts(c, s, t, choice);
    }
  }

  lemma WrapAdd(x: int, change: int)
    ensures (x % TWO_TO_64 + change) % TWO_TO_64 == (x + change) % TWO_TO_64
  {
  }

  /** The exact value behind a wrapped one, where it is known to be small enough. */
  lemma Unwrap(x: int, length: nat)
    requires length == x % TWO_TO_64 && x < TWO_TO_64
    ensures x <= length
    ensures x >= 0 ==> x == length
  {
  }

  lemma KeepsCounted<T>(c: Config<T>, s: State<T>, s': State<T>, t: nat)
    requires Counted(s) && Accounted(c, s, s', t)
    ensures Counted(s')
  {
    TotalsUpdate(s.threads, t, s'.threads[t]);
    var x := Depth(s) + Totals(s.threads).removed - Totals(s.threads).linked;
    var x' := Depth(s') + Totals(s'.threads).removed - Totals(s'.threads).linked;
    WrapAdd(x, x' - x);
  }

  lemma KeepsBounded<T>(c: Config<T>, s: State<T>, s': State<T>, t: nat)
    requires Counted(s) && Bounded(c, s) && Accounted(c, s, s', t)
    requires Bound(c, |s.threads|) < TWO_TO_64
    ensures Bounded(c, s')
  {
    TotalsUpdate(s.threads, t, s'.threads[t]);
    TotalsBound(c, s'.threads);
    Unwrap(Depth(s) + Totals(s.threads).removed - Totals(s.threads).linked, s.length);
  }

  // A pop removes consecutive values, and no two remove the same

  /** Two stretches of `m` positions from `a` on and `n` from `b` on. */
  predicate Apart(a: nat, m: nat, b: nat, n: nat) {
    m == 0 || n == 0 || a + m <= b || b + n <= a
  }

  ghost predicate RunAt<X>(s: seq<X>, at: nat, run: seq<X>) {
    at + |run| <= |s| && s[at..at + |run|] == run
  }

  /** Where in the history of popped values each thread's own values are: stretches that
      do not overlap, and that of the holder of the pop lock is the latest. */
  ghost predicate RunsAt<T>(s: State<T>, at: seq<nat>) {
    && |at| == |s.threads|
    && (forall t :: 0 <= t < |at| ==> RunAt(s.popped, at[t], s.threads[t].got))
    && (forall t, u :: 0 <= t < u < |at| ==> Apart(at[t], |s.threads[t].got|, at[u], |s.threads[u].got|))
    && (s.popping.Some? && s.popping.value < |at| ==>
          var got := s.threads[s.popping.value].got;
          got == [] || at[s.popping.value] + |got| == |s.popped|)
  }

  ghost predicate Runs<T>(s: State<T>) {
    exists at :: RunsAt(s, at)
  }

  ghost predicate EndsWith<X>(s: seq<X>, end: seq<X>) {
    |end| <= |s| && s[|s| - |end|..] == end
  }

  /** One statement takes a value for the thread, or leaves the popped values alone. */
  ghost predicate Took<T>(s: State<T>, s': State<T>, t: nat) {
    && t < |s.threads| == |s'.threads| && s'.threads == s.threads[t := s'.threads[t]]
    && LockMoves(s.popping, s'.popping, t)
    && (s'.popping == Some(t) && s.popping != Some(t) ==> s'.threads[t].got == [] && s'.popped == s.popped)
    && ((s'.popped == s.popped && (s'.threads[t].got == s.threads[t].got || s'.threads[t].got == []))
        || (s.popping == Some(t) && s'.popped != [] && s'.popped == s.popped + [Last(s'.popped)]
            && s'.threads[t].got == s.threads[t].got + [Last(s'.popped)]))
  }

  lemma PopTakes<T>(c: Config<T>, s: State<T>, t: nat, choice: Choice<T>)
    requires t < |s.threads| && Enabled(c, s, t, choice) && Safe(c, s, t) && IsPop(s.threads[t].pc)
    requires Locked(s) && s.chain != [] && Shape(c, s.threads[t], s.chain)
    ensures Took(s, PopStep(c, s, t, choice), t)
  {
  }

  lemma OtherTakesNothing<T>(c: Config<T>, s: State<T>, t: nat, choice: Choice<T>)
    requires t < |s.threads| && Enabled(c, s, t, choice) && Safe(c, s, t)
    requires !IsPop(s.threads[t].pc) && s.popping != Some(t)
    ensures Took(s, Step(c, s, t, choice), t)
  {
  }

  lemma StepTakes<T>(c: Config<T>, s: State<T>, t: nat, choice: Choice<T>)
    requires Ready(c, s, t, choice)
    ensures Took(s, Step(c, s, t, choice), t)
  {
    ShapeOf(c, s, t);
    if IsPop(s.threads[t].pc) {
      PopTakes(c, s, t, choice);
    } else {
      OtherTakesNothing(c, s, t, choice);
    }
  }

  lemma RunGrows<X>(s: seq<X>, at: nat, run: seq<X>, x: X)
    requires RunAt(s, at, run)
    ensures RunAt(s + [x], at, run)
    ensures at + |run| == |s| ==> RunAt(s + [x], at, run + [x])
  {
  }

  lemma KeepsRuns<T>(s: State<T>, s': State<T>, t: nat)
    requires Runs(s) && Locked(s) && Took(s, s', t)
    ensures Runs(s') && s.popped <= s'.popped
  {
    hide RunAt, Locked;
    var at :| RunsAt(s, at);
    if s'.popped == s.popped {
      EmptyRun(s.popped, at[t], s.threads[t].got);
      assert RunsAt(s', at);
    } else {
      NextRun(s, s', t, at);
    }
  }

  lemma EmptyRun<X>(s: seq<X>, at: nat, run: seq<X>)
    requires RunAt(s, at, run)
    ensures RunAt(s, at, [])
  {
  }

  lemma NextRun<T>(s: State<T>, s': State<T>, t: nat, at: seq<nat>)
    requires RunsAt(s, at) && Locked(s) && Took(s, s', t) && s'.popped != s.popped
    ensures Runs(s')
  {
    hide RunAt;
    var n := |s.popped|;
    var at' := if s.threads[t].got == [] then at[t := n] else at;
    forall u | 0 <= u < |at'| ensures RunAt(s'.popped, at'[u], s'.threads[u].got) {
      if u == t && s.threads[t].got == [] {
        RunOfOne(s.popped, Last(s'.popped));
        assert s'.threads[t].got == [Last(s'.popped)];
      } else {
        RunGrows(s.popped, at[u], s.threads[u].got, Last(s'.popped));
      }
    }
    RunsFit(s, at);
    assert RunsAt(s', at');
  }

  lemma RunOfOne<X>(s: seq<X>, x: X)
    ensures RunAt(s + [x], |s|, [x])
  {
  }

  lemma RunsFit<T>(s: State<T>, at: seq<nat>)
    requires RunsAt(s, at)
    ensures forall u :: 0 <= u < |at| ==> at[u] + |s.threads[u].got| <= |s.popped|
  {
  }
}
