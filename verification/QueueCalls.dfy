/** What whole calls do, whatever other threads do in the meantime: a push delivers what it
    was given, a pop answers for the queue as it found it, and each call left alone ends. */
module QueueCalls {
  import opened Bytes
  import opened ConcurrentQueue
  import opened QueueInvariant
  import opened QueueSteps
  import opened QueueLocals
  import opened QueueRuns
  import opened QueueLength
  import opened QueueTheorems

  /** In the middle of a push, or of a pop. */
  predicate InCall<T>(pc: Pc<T>, push: bool) {
    if push then IsPush(pc) else IsPop(pc) || IsDrain(pc)
  }

  /** Thread `t` is in the same call in every state of a run from `s`. */
  ghost predicate Inside<T>(c: Config<T>, s: State<T>, schedule: seq<(nat, Choice<T>)>, t: nat, push: bool)
    decreases |schedule|
  {
    && t < |s.threads| && InCall(s.threads[t].pc, push)
    && (schedule == [] ||
        var (u, choice) := schedule[0];
        && u < |s.threads| && Enabled(c, s, u, choice) && Safe(c, s, u)
        && Inside(c, Step(c, s, u, choice), schedule[1..], t, push))
  }

  lemma OthersStay<T>(c: Config<T>, s: State<T>, u: nat, choice: Choice<T>)
    requires Good(c, s) && u < |s.threads| && Enabled(c, s, u, choice) && Safe(c, s, u)
    ensures var s' := Step(c, s, u, choice);
            && s'.threads == s.threads[u := s'.threads[u]]
            && s.popped <= s'.popped && Good(c, s')
  {
    StepTakes(c, s, u, choice);
    StepKeepsGood(c, s, u, choice);
  }

  // Calls

  /** What a call makes of a thread. */
  lemma CallsStart<T>(c: Config<T>, s: State<T>, t: nat, choice: Choice<T>)
    requires t < |s.threads| && Enabled(c, s, t, choice) && Safe(c, s, t)
    ensures choice.CallPush? ==> Step(c, s, t, choice).threads[t].pc == Gate(choice.vals)
    ensures choice.CallPop? ==> Step(c, s, t, choice).threads[t].pc == AcquirePop(choice.many, choice.target)
    ensures choice.CallPush? || choice.CallPop? ==> s.threads[t].pc.Idle?
  {
    hide PushStep, PopStep, DrainStep;
  }

  // PushBack

  predicate Carries<T(==)>(pc: Pc<T>, vals: seq<T>) {
    (pc.Gate? || pc.Alloc? || pc.Tie? || pc.AcquirePush? || pc.Link?) && pc.vals == vals
  }

  predicate Counting<T>(pc: Pc<T>) {
    pc.SwingBack? || pc.ReleasePush? || pc.CountUp?
  }

  lemma PushMoves<T>(c: Config<T>, s: State<T>, t: nat, choice: Choice<T>)
    requires t < |s.threads| && Enabled(c, s, t, choice) && Safe(c, s, t) && IsPush(s.threads[t].pc)
    ensures var pc, s' := s.threads[t].pc, Step(c, s, t, choice);
            && (pc.Link? ==> Counting(s'.threads[t].pc))
            && (!Counting(pc) && !pc.Link? ==> Carries(s'.threads[t].pc, pc.vals))
            && (Counting(pc) ==> Counting(s'.threads[t].pc) || s'.threads[t].pc.Idle?)
  {
  }

  lemma StepPushes<T>(c: Config<T>, s: State<T>, t: nat, choice: Choice<T>)
    requires t < |s.threads| && Enabled(c, s, t, choice) && Safe(c, s, t)
    ensures var pc := s.threads[t].pc;
            Step(c, s, t, choice).pushed == s.pushed + if pc.Link? then pc.vals else []
  {
  }

  /** The values are together in the history of pushed ones, from position `from` on or later. */
  ghost predicate Landed<T>(pushed: seq<T>, from: nat, vals: seq<T>) {
    exists k :: from <= k && RunAt(pushed, k, vals)
  }

  lemma LandedStays<T>(pushed: seq<T>, from: nat, vals: seq<T>, more: seq<T>)
    requires Landed(pushed, from, vals)
    ensures Landed(pushed + more, from, vals)
  {
    var k :| from <= k && RunAt(pushed, k, vals);
    assert RunAt(pushed + more, k, vals);
  }

  lemma LandsAtEnd<T>(pushed: seq<T>, from: nat, vals: seq<T>)
    requires from <= |pushed|
    ensures Landed(pushed + vals, from, vals)
  {
    assert RunAt(pushed + vals, |pushed|, vals);
  }

  /** A push on its way: it carries its values, or has linked them. */
  ghost predicate OnItsWay<T>(s: State<T>, t: nat, from: nat, vals: seq<T>) {
    && t < |s.threads| && from <= |s.pushed|
    && (Carries(s.threads[t].pc, vals) || (Counting(s.threads[t].pc) && Landed(s.pushed, from, vals)))
  }

  lemma PushStaysOnItsWay<T>(c: Config<T>, s: State<T>, t: nat, from: nat, vals: seq<T>, u: nat, choice: Choice<T>)
    requires Good(c, s) && OnItsWay(s, t, from, vals)
    requires u < |s.threads| && Enabled(c, s, u, choice) && Safe(c, s, u)
    ensures var s' := Step(c, s, u, choice);
            OnItsWay(s', t, from, vals) || (u == t && s'.threads[t].pc.Idle? && Landed(s'.pushed, from, vals))
  {
    hide PushStep, PopStep, DrainStep, Step, Safe, Enabled, Good, Landed;
    OthersStay(c, s, u, choice);
    StepPushes(c, s, u, choice);
    var pc := s.threads[u].pc;
    if Landed(s.pushed, from, vals) {
      LandedStays(s.pushed, from, vals, if pc.Link? then pc.vals else []);
    }
    if u == t {
      PushMoves(c, s, t, choice);
      if pc.Link? {
        LandsAtEnd(s.pushed, from, vals);
      }
    }
  }

  lemma {:induction false} RunOfPush<T>(c: Config<T>, s: State<T>, schedule: seq<(nat, Choice<T>)>, r: State<T>, t: nat,
          from: nat, vals: seq<T>)
    requires Good(c, s) && Reaches(c, s, schedule, r) && Inside(c, s, schedule, t, true)
    requires OnItsWay(s, t, from, vals)
    ensures Good(c, r) && OnItsWay(r, t, from, vals)
    decreases |schedule|
  {
    hide PushStep, PopStep, DrainStep, Step, Safe, Enabled, Good, OnItsWay;
    if schedule != [] {
      var (u, choice) := schedule[0];
      PushStaysOnItsWay(c, s, t, from, vals, u, choice);
      OthersStay(c, s, u, choice);
      RunOfPush(c, Step(c, s, u, choice), schedule[1..], r, t, from, vals);
    }
  }

  /** A push returns only once its values, all of them and in order, have been linked one
      behind the other, after whatever had been linked when it was called. */
  lemma PushDelivers<T(!new)>(c: Config<T>, threads: nat, s: State<T>, schedule: seq<(nat, Choice<T>)>, r: State<T>,
          t: nat, vals: seq<T>, last: Choice<T>)
    requires Reachable(c, threads, s) && t < threads == |s.threads| && s.threads[t].pc == Gate(vals)
    requires Reaches(c, s, schedule, r) && Inside(c, s, schedule, t, true) && t < |r.threads| && Enabled(c, r, t, last)
    ensures Safe(c, r, t)
    ensures var end := Step(c, r, t, last);
            !IsPush(end.threads[t].pc) ==>
              && end.threads[t].pc.Idle?
              && Landed(end.pushed, |s.pushed|, vals)
  {
    hide PushStep, PopStep, DrainStep, Step, Safe, Enabled, Reachable, Inv;
    ReachableIsGood(c, threads, s);
    RunOfPush(c, s, schedule, r, t, |s.pushed|, vals);
    InvImpliesSafe(c, r, t);
    PushStaysOnItsWay(c, r, t, |s.pushed|, vals, t, last);
  }

  // PopFront

  /** A thread on its way through the pop that was called with these arguments. */
  predicate Answering<T(==)>(th: Thread<T>, many: bool, target: seq<T>) {
    match th.pc
    case AcquirePop(m, x) => m == many && x == target && th.got == []
    case Test(m, x) => m == many && x == target && th.got == []
    case ReleaseEmpty => th.got == []
    case Save(m, x) => m == many && x == target && th.got == []
    case Advance(_) => !many
    case Copy(_) => !many
    case ReleaseOne(_, _) => !many
    case DeleteOne(_, _) => !many
    case CountDown(_) => !many
    case WalkTest(_, _, x) => many && x == target
    case WalkHop(_, _, x) => many && x == target
    case CountMany(_, _, x) => many && x == target
    case SaveNew(_, _, x) => many && x == target
    case ReleaseMany(b) => many && b.target == target
    case Resize(b) => many && b.target == target
    case Enter(b, _) => many && b.target == target
    case DrainTest(b, _, _, _) => many && b.target == target
    case DrainCopy(b, _, _, _) => many && b.target == target
    case DrainNext(b, _, _, _) => many && b.target == target
    case DrainDelete(b, _, _, _, _) => many && b.target == target
    case DeleteOld(b, _) => many && b.target == target
    case _ => false
  }

  /** What a call may end with: false and nothing taken, one value if one was asked for, or
      the caller's vector if all were. */
  predicate Answered<T(==)>(was: Pc<T>, th: Thread<T>, many: bool, target: seq<T>) {
    match th.pc
    case Idle => was.ReleaseEmpty? && th.got == []
    case GotOne(_) => !many
    case GotMany(b, _) => many && b.target == target
    case _ => false
  }

  lemma PopAnswers<T>(c: Config<T>, s: State<T>, t: nat, choice: Choice<T>, many: bool, target: seq<T>)
    requires t < |s.threads| && Enabled(c, s, t, choice) && Safe(c, s, t) && IsPop(s.threads[t].pc)
    requires Answering(s.threads[t], many, target)
    ensures var th' := PopStep(c, s, t, choice).threads[t];
            Answering(th', many, target) || Answered(s.threads[t].pc, th', many, target)
  {
  }

  lemma DrainAnswers<T>(c: Config<T>, s: State<T>, t: nat, choice: Choice<T>, many: bool, target: seq<T>)
    requires t < |s.threads| && Enabled(c, s, t, choice) && Safe(c, s, t) && IsDrain(s.threads[t].pc)
    requires Answering(s.threads[t], many, target)
    ensures var th' := DrainStep(c, s, t, choice).threads[t];
            Answering(th', many, target) || Answered(s.threads[t].pc, th', many, target)
  {
  }

  lemma StepAnswers<T>(c: Config<T>, s: State<T>, t: nat, choice: Choice<T>, many: bool, target: seq<T>)
    requires t < |s.threads| && Enabled(c, s, t, choice) && Safe(c, s, t)
    requires Answering(s.threads[t], many, target)
    ensures var th' := Step(c, s, t, choice).threads[t];
            Answering(th', many, target) || Answered(s.threads[t].pc, th', many, target)
  {
    hide PushStep, PopStep, DrainStep;
    if IsPop(s.threads[t].pc) {
      PopAnswers(c, s, t, choice, many, target);
    } else {
      DrainAnswers(c, s, t, choice, many, target);
    }
  }

  lemma {:induction false} RunOfPop<T>(c: Config<T>, s: State<T>, schedule: seq<(nat, Choice<T>)>, r: State<T>, t: nat,
          many: bool, target: seq<T>)
    requires Good(c, s) && Reaches(c, s, schedule, r) && Inside(c, s, schedule, t, false)
    requires Answering(s.threads[t], many, target)
    ensures Good(c, r) && t < |r.threads| && Answering(r.threads[t], many, target)
    decreases |schedule|
  {
    hide PushStep, PopStep, DrainStep, Step, Safe, Enabled, Good, Answering;
    if schedule != [] {
      var (u, choice) := schedule[0];
      OthersStay(c, s, u, choice);
      if u == t {
        StepAnswers(c, s, t, choice, many, target);
        StillInside(s.threads[t].pc, Step(c, s, u, choice).threads[t], many, target);
      }
      RunOfPop(c, Step(c, s, u, choice), schedule[1..], r, t, many, target);
    }
  }

  lemma StillInside<T>(was: Pc<T>, th: Thread<T>, many: bool, target: seq<T>)
    ensures InCall(th.pc, false) ==> !Answered(was, th, many, target)
  {
  }

  /** A pop returns false with nothing taken, and otherwise what it was asked for: one
      value, or all in the vector it was given. */
  lemma PopReturns<T(!new)>(c: Config<T>, threads: nat, s: State<T>, schedule: seq<(nat, Choice<T>)>, r: State<T>,
          t: nat,
          many: bool, target: seq<T>, last: Choice<T>)
    requires Reachable(c, threads, s) && t < threads == |s.threads|
    requires s.threads[t].pc == AcquirePop(many, target)
    requires Reaches(c, s, schedule, r) && Inside(c, s, schedule, t, false) && t < |r.threads| && Enabled(c, r, t, last)
    ensures Safe(c, r, t)
    ensures var end := Step(c, r, t, last);
            !InCall(end.threads[t].pc, false) ==> Answered(r.threads[t].pc, end.threads[t], many, target)
  {
    hide PushStep, PopStep, DrainStep, Step, Safe, Enabled, Reachable, Inv, Answered;
    ReachableIsGood(c, threads, s);
    ShapeOf(c, s, t);
    RunOfPop(c, s, schedule, r, t, many, target);
    InvImpliesSafe(c, r, t);
    StepAnswers(c, r, t, last, many, target);
  }

  // What a bulk pop takes

  /** Thread `t` holds the pop lock in every state of a run from `s`. */
  ghost predicate KeepsLock<T>(c: Config<T>, s: State<T>, schedule: seq<(nat, Choice<T>)>, t: nat)
    decreases |schedule|
  {
    && t < |s.threads| && InPop(s.threads[t].pc)
    && (schedule == [] ||
        var (u, choice) := schedule[0];
        && u < |s.threads| && Enabled(c, s, u, choice) && Safe(c, s, u)
        && KeepsLock(c, Step(c, s, u, choice), schedule[1..], t))
  }

  lemma HolderTakes<T>(c: Config<T>, s: State<T>, t: nat, choice: Choice<T>)
    requires t < |s.threads| && Enabled(c, s, t, choice) && Safe(c, s, t) && InPop(s.threads[t].pc)
    ensures var s' := PopStep(c, s, t, choice);
            || (s'.popped == s.popped && s'.threads[t].got == s.threads[t].got)
            || (s'.popped != [] && s'.popped == s.popped + [Last(s'.popped)]
                && s'.threads[t].got == s.threads[t].got + [Last(s'.popped)])
  {
  }

  lemma OthersTakeNothing<T>(s: State<T>, s': State<T>, t: nat, u: nat)
    requires Locked(s) && Took(s, s', u) && t < |s.threads| && u != t && InPop(s.threads[t].pc)
    ensures s'.popped == s.popped && s'.threads[t] == s.threads[t]
  {
  }

  lemma HolderIsPopping<T>(c: Config<T>, s: State<T>, t: nat, choice: Choice<T>)
    requires t < |s.threads| && Enabled(c, s, t, choice) && Safe(c, s, t) && InPop(s.threads[t].pc)
    ensures Step(c, s, t, choice) == PopStep(c, s, t, choice)
  {
    hide PushStep, PopStep, DrainStep;
  }

  lemma TakesOneMore<T>(c: Config<T>, s: State<T>, t: nat, choice: Choice<T>, before: seq<T>)
    requires t < |s.threads| && Enabled(c, s, t, choice) && Safe(c, s, t) && InPop(s.threads[t].pc)
    requires s.popped == before + s.threads[t].got
    ensures var s' := PopStep(c, s, t, choice); s'.popped == before + s'.threads[t].got
  {
    hide PopStep, Safe, Enabled;
    var s' := PopStep(c, s, t, choice);
    HolderTakes(c, s, t, choice);
    if s'.popped != s.popped {
      assert before + (s.threads[t].got + [Last(s'.popped)]) == before + s.threads[t].got + [Last(s'.popped)];
    }
  }

  /** While a thread holds the lock nobody else pops, and what it pops it has got. */
  lemma OnlyHolderTakes<T>(c: Config<T>, s: State<T>, t: nat, u: nat, choice: Choice<T>, before: seq<T>)
    requires Good(c, s) && t < |s.threads| && InPop(s.threads[t].pc) && s.popped == before + s.threads[t].got
    requires u < |s.threads| && Enabled(c, s, u, choice) && Safe(c, s, u)
    ensures var s' := Step(c, s, u, choice); s'.popped == before + s'.threads[t].got
  {
    hide Step, PopStep, Safe, Enabled, Took, Locked, RunsAt, Fifo, Ownership, Chained, LocalOk, Counted, Runs;
    if u == t {
      HolderIsPopping(c, s, t, choice);
      TakesOneMore(c, s, t, choice, before);
    } else {
      StepTakes(c, s, u, choice);
      OthersTakeNothing(s, Step(c, s, u, choice), t, u);
    }
  }

  lemma {:induction false} RunOfHolder<T>(c: Config<T>, s: State<T>, schedule: seq<(nat, Choice<T>)>, r: State<T>,
          t: nat, before: seq<T>)
    requires Good(c, s) && Reaches(c, s, schedule, r) && KeepsLock(c, s, schedule, t)
    requires s.popped == before + s.threads[t].got
    ensures Good(c, r) && t < |r.threads| && r.popped == before + r.threads[t].got
    decreases |schedule|
  {
    hide PushStep, PopStep, DrainStep, Step, Safe, Enabled, Good;
    if schedule != [] {
      var (u, choice) := schedule[0];
      OthersStay(c, s, u, choice);
      OnlyHolderTakes(c, s, t, u, choice, before);
      RunOfHolder(c, Step(c, s, u, choice), schedule[1..], r, t, before);
    }
  }

  lemma WalkStep<T>(c: Config<T>, s: State<T>, t: nat, choice: Choice<T>)
    requires t < |s.threads| && Enabled(c, s, t, choice) && Safe(c, s, t) && s.threads[t].pc.WalkTest?
    ensures var pc' := Step(c, s, t, choice).threads[t].pc;
            if s.heap[s.front].next.Some? then pc'.WalkHop? else pc'.CountMany?
  {
    hide PushStep, DrainStep, Detach, Delete;
  }

  lemma AtTheEnd<T>(s: State<T>)
    requires Chained(s) && Fifo(s)
    ensures s.front in s.heap && (s.heap[s.front].next.None? <==> s.popped == s.pushed)
  {
    FrontIsLive(s);
  }

  /** The walk of a bulk pop stops exactly when everything pushed has been popped, and then
      it holds everything that had been pushed by that time and not popped before. */
  lemma BulkPopTakesAll<T(!new)>(c: Config<T>, threads: nat, s: State<T>, schedule: seq<(nat, Choice<T>)>, r: State<T>,
          t: nat, choice: Choice<T>)
    requires Reachable(c, threads, s) && t < threads == |s.threads| && s.threads[t].pc.Test?
    requires Reaches(c, s, schedule, r) && KeepsLock(c, s, schedule, t)
    requires t < |r.threads| && r.threads[t].pc.WalkTest? && Enabled(c, r, t, choice)
    ensures Safe(c, r, t)
    ensures Step(c, r, t, choice).threads[t].pc.CountMany? <==> r.popped == r.pushed
    ensures Step(c, r, t, choice).threads[t].pc.CountMany? ==> s.popped + r.threads[t].got == r.pushed
  {
    hide PushStep, PopStep, DrainStep, Step, Safe, Enabled, Reachable;
    ReachableIsGood(c, threads, s);
    ShapeOf(c, s, t);
    RunOfHolder(c, s, schedule, r, t, s.popped);
    InvImpliesSafe(c, r, t);
    WalkStep(c, r, t, choice);
    AtTheEnd(r);
  }

  /** A bulk pop that has stopped walking. */
  predicate Stopped<T>(pc: Pc<T>) {
    pc.CountMany? || pc.SaveNew? || pc.ReleaseMany? || IsDrain(pc) || pc.GotMany?
  }

  lemma StoppedKeepsGot<T>(c: Config<T>, s: State<T>, t: nat, choice: Choice<T>)
    requires t < |s.threads| && Enabled(c, s, t, choice) && Safe(c, s, t) && Stopped(s.threads[t].pc)
    requires !s.threads[t].pc.GotMany?
    ensures var th' := Step(c, s, t, choice).threads[t]; Stopped(th'.pc) && th'.got == s.threads[t].got
  {
    hide PushStep;
  }

  /** From there on what it holds is what it will return. */
  lemma {:induction false} RunOfStopped<T>(c: Config<T>, s: State<T>, schedule: seq<(nat, Choice<T>)>, r: State<T>,
          t: nat)
    requires Good(c, s) && Reaches(c, s, schedule, r) && Inside(c, s, schedule, t, false) && Stopped(s.threads[t].pc)
    ensures t < |r.threads| && Stopped(r.threads[t].pc) && r.threads[t].got == s.threads[t].got
    decreases |schedule|
  {
    hide PushStep, PopStep, DrainStep, Step, Safe, Enabled, Good, Stopped;
    if schedule != [] {
      var (u, choice) := schedule[0];
      OthersStay(c, s, u, choice);
      if u == t {
        InsideIsNotOver(s.threads[t].pc);
        StoppedKeepsGot(c, s, t, choice);
      }
      RunOfStopped(c, Step(c, s, u, choice), schedule[1..], r, t);
    }
  }

  lemma InsideIsNotOver<T>(pc: Pc<T>)
    requires InCall(pc, false)
    ensures !pc.GotMany?
  {
  }

  // Waiting and finishing

  /** A thread waits at three places only. */
  predicate Waits<T>(c: Config<T>, s: State<T>, t: nat)
    requires t < |s.threads|
  {
    match s.threads[t].pc
    case Gate(_) => s.length > c.maxLength
    case AcquirePush(_) => s.pushing.Some?
    case AcquirePop(_, _) => s.popping.Some?
    case _ => false
  }

  /** An upper bound on the statements a thread has left in its call if others rest; a bulk
      pop goes along the `chain`. */
  function Remaining<T>(th: Thread<T>, chain: nat): nat {
    var own := |th.own|;
    match th.pc
    case Idle => 0
    case Gate(vals) => 7 + 2 * |vals|
    case Alloc(vals) => 6 + 2 * (if own < |vals| then |vals| - own else 0)
    case Tie(vals) => 7 + 2 * (if own < |vals| then |vals| - own else 0)
    case AcquirePush(_) => 5
    case Link(_) => 4
    case SwingBack(_, _) => 3
    case ReleasePush(_) => 2
    case CountUp(_) => 1
    case AcquirePop(_, _) => 11 + 6 * chain
    case Test(_, _) => 10 + 6 * chain
    case ReleaseEmpty => 1
    case Save(_, _) => 9 + 6 * chain
    case Advance(_) => 5
    case Copy(_) => 4
    case ReleaseOne(_, _) => 3
    case DeleteOne(_, _) => 2
    case CountDown(_) => 1
    case GotOne(_) => 0
    case WalkTest(_, _, _) => 8 + 4 * own + 6 * chain
    case WalkHop(_, _, _) => 7 + 4 * own + 6 * chain
    case CountMany(_, _, _) => 7 + 4 * own
    case SaveNew(_, _, _) => 6 + 4 * own
    case ReleaseMany(_) => 5 + 4 * own
    case Resize(_) => 4 + 4 * own
    case Enter(_, _) => 3 + 4 * own
    case DrainTest(_, _, _, _) => 2 + 4 * own
    case DrainCopy(_, _, _, _) => 1 + 4 * own
    case DrainNext(_, _, _, _) => 4 * own
    case DrainDelete(_, _, _, _, _) => if own == 0 then 0 else 4 * own - 1
    case DeleteOld(_, _) => 1
    case GotMany(_, _) => 0
  }

  /** Thread `t` has less left to do. */
  predicate Closer<T>(s: State<T>, s': State<T>, t: nat) {
    && t < |s.threads| && t < |s'.threads|
    && Remaining(s'.threads[t], |s'.chain|) < Remaining(s.threads[t], |s.chain|)
  }

  lemma PushGoesOn<T>(c: Config<T>, s: State<T>, t: nat, choice: Choice<T>)
    requires t < |s.threads| && Enabled(c, s, t, choice) && Safe(c, s, t) && IsPush(s.threads[t].pc)
    requires s.chain != [] && Shape(c, s.threads[t], s.chain)
    ensures var s' := PushStep(c, s, t, choice);
            if Waits(c, s, t) then s' == s else Closer(s, s', t)
  {
  }

  lemma OnwardGoesOn<T>(c: Config<T>, th: Thread<T>, heap: map<Id, Node<T>>, chain: seq<Id>)
    requires chain != [] && ReadsOnly(th.pc) && Shape(c, th, chain) && chain[0] in heap
    ensures Remaining(th.(pc := Onward(c, th.pc, heap, chain[0])), |chain|) < Remaining(th, |chain|)
  {
  }

  lemma LockGoesOn<T>(c: Config<T>, s: State<T>, t: nat, choice: Choice<T>)
    requires t < |s.threads| && Enabled(c, s, t, choice) && Safe(c, s, t) && IsPop(s.threads[t].pc)
    requires !ReadsOnly(s.threads[t].pc) && s.chain != [] && Shape(c, s.threads[t], s.chain)
    ensures var s' := PopStep(c, s, t, choice);
            if Waits(c, s, t) then s' == s else Closer(s, s', t)
  {
    hide BulkShape, Filled, Delivered;
  }

  lemma PopGoesOn<T>(c: Config<T>, s: State<T>, t: nat, choice: Choice<T>)
    requires t < |s.threads| && Enabled(c, s, t, choice) && Safe(c, s, t) && IsPop(s.threads[t].pc)
    requires Chained(s) && Shape(c, s.threads[t], s.chain)
    ensures var s' := PopStep(c, s, t, choice);
            if Waits(c, s, t) then s' == s else Closer(s, s', t)
  {
    hide PopStep, Remaining, Shape, Onward, Safe, Enabled;
    if ReadsOnly(s.threads[t].pc) {
      FrontIsLive(s);
      OnwardGoesOn(c, s.threads[t], s.heap, s.chain);
      OnwardIsStep(c, s, t, choice);
    } else {
      LockGoesOn(c, s, t, choice);
    }
  }

  lemma DrainedGoesOn<T>(c: Config<T>, th: Thread<T>, heap: map<Id, Node<T>>, chain: seq<Id>)
    requires chain != [] && IsDrain(th.pc) && !th.pc.DrainDelete? && !th.pc.DeleteOld? && Shape(c, th, chain)
    ensures Drained(c, th.pc, heap) == th.pc
            || Remaining(th.(pc := Drained(c, th.pc, heap)), |chain|) < Remaining(th, |chain|)
  {
    hide Filled, Delivered;
  }

  lemma DeletesGoOn<T>(c: Config<T>, s: State<T>, t: nat, choice: Choice<T>)
    requires t < |s.threads| && Enabled(c, s, t, choice) && Safe(c, s, t)
    requires s.threads[t].pc.DrainDelete? || s.threads[t].pc.DeleteOld?
    requires s.chain != [] && Shape(c, s.threads[t], s.chain)
    ensures var s' := DrainStep(c, s, t, choice); Closer(s, s', t)
  {
    hide Filled, Delivered;
  }

  lemma DrainGoesOn<T>(c: Config<T>, s: State<T>, t: nat, choice: Choice<T>)
    requires t < |s.threads| && Enabled(c, s, t, choice) && Safe(c, s, t) && IsDrain(s.threads[t].pc)
    requires s.chain != [] && Shape(c, s.threads[t], s.chain)
    ensures var s' := DrainStep(c, s, t, choice); Closer(s, s', t)
  {
    hide DrainStep, Remaining, Shape, Drained, Enabled;
    var pc := s.threads[t].pc;
    if pc.DrainDelete? || pc.DeleteOld? {
      DeletesGoOn(c, s, t, choice);
    } else {
      DrainMoves(c, s, t, choice);
      DrainedGoesOn(c, s.threads[t], s.heap, s.chain);
      DrainedIsStep(c, s, t, choice);
    }
  }

  lemma DrainMoves<T>(c: Config<T>, s: State<T>, t: nat, choice: Choice<T>)
    requires t < |s.threads| && Enabled(c, s, t, choice) && Safe(c, s, t) && IsDrain(s.threads[t].pc)
    requires !s.threads[t].pc.DrainDelete? && !s.threads[t].pc.DeleteOld?
    ensures Drained(c, s.threads[t].pc, s.heap) != s.threads[t].pc
  {
  }

  lemma StepGoesOn<T>(c: Config<T>, s: State<T>, t: nat, choice: Choice<T>)
    requires t < |s.threads| && Enabled(c, s, t, choice) && Safe(c, s, t) && !BetweenCalls(s.threads[t].pc)
    requires Chained(s) && Shape(c, s.threads[t], s.chain)
    ensures var s' := Step(c, s, t, choice);
            if Waits(c, s, t) then s' == s else Closer(s, s', t)
  {
    hide PushStep, PopStep, DrainStep, Shape, Remaining;
    if IsPush(s.threads[t].pc) {
      PushGoesOn(c, s, t, choice);
    } else if IsPop(s.threads[t].pc) {
      PopGoesOn(c, s, t, choice);
    } else {
      DrainGoesOn(c, s, t, choice);
    }
  }

  /** In the middle of a call a thread stays where it is exactly at a closed gate and at a
      lock that is held; any other statement brings it closer to its return. */
  lemma WaitsExactly<T(!new)>(c: Config<T>, threads: nat, s: State<T>, t: nat, choice: Choice<T>)
    requires Reachable(c, threads, s) && t < threads == |s.threads| && Enabled(c, s, t, choice)
    requires !BetweenCalls(s.threads[t].pc)
    ensures Safe(c, s, t)
    ensures Step(c, s, t, choice) == s <==> Waits(c, s, t)
    ensures !Waits(c, s, t) ==> Closer(s, Step(c, s, t, choice), t)
  {
    hide Reachable, Step, Safe, Enabled, Remaining, Shape;
    ReachableIsGood(c, threads, s);
    InvImpliesSafe(c, s, t);
    ShapeOf(c, s, t);
    StepGoesOn(c, s, t, choice);
  }

  lemma {:induction false} AboveAll(ids: set<Id>) returns (id: Id)
    ensures forall x :: x in ids ==> x < id
  {
    id := 0;
    if ids != {} {
      var x :| x in ids;
      var y := AboveAll(ids - {x});
      assert forall z :: z in ids ==> z == x || z in ids - {x};
      id := if x < y then y else x + 1;
    }
  }

  lemma SomeChoice<T>(c: Config<T>, s: State<T>, t: nat) returns (choice: Choice<T>)
    requires t < |s.threads| && !s.threads[t].pc.Idle?
    ensures Enabled(c, s, t, choice)
  {
    if s.threads[t].pc.Alloc? {
      var id := AboveAll(s.heap.Keys);
      choice := Address(id);
    } else {
      choice := Go;
    }
  }

  /** No lock that thread `t` still has to take is held, and no gate it has to pass closed. */
  predicate Free<T>(c: Config<T>, s: State<T>, t: nat)
    requires t < |s.threads|
  {
    match s.threads[t].pc
    case Gate(_) => s.length <= c.maxLength && s.pushing.None?
    case Alloc(_) => s.pushing.None?
    case Tie(_) => s.pushing.None?
    case AcquirePush(_) => s.pushing.None?
    case AcquirePop(_, _) => s.popping.None?
    case _ => true
  }

  lemma PushStaysFree<T>(c: Config<T>, s: State<T>, t: nat, choice: Choice<T>)
    requires t < |s.threads| && Enabled(c, s, t, choice) && Safe(c, s, t) && IsPush(s.threads[t].pc) && Free(c, s, t)
    ensures Free(c, PushStep(c, s, t, choice), t)
  {
  }

  /** Nothing after its lock waits. */
  lemma PopStaysFree<T>(c: Config<T>, s: State<T>, t: nat, choice: Choice<T>)
    requires t < |s.threads| && Enabled(c, s, t, choice) && Safe(c, s, t) && Free(c, s, t)
    requires IsPop(s.threads[t].pc)
    ensures Free(c, PopStep(c, s, t, choice), t)
  {
    hide Except;
  }

  lemma DrainStaysFree<T>(c: Config<T>, s: State<T>, t: nat, choice: Choice<T>)
    requires t < |s.threads| && Enabled(c, s, t, choice) && Safe(c, s, t) && IsDrain(s.threads[t].pc)
    ensures Free(c, DrainStep(c, s, t, choice), t)
  {
    hide Except, Resized, Finished;
  }

  lemma StaysFree<T>(c: Config<T>, s: State<T>, t: nat, choice: Choice<T>)
    requires t < |s.threads| && Enabled(c, s, t, choice) && Safe(c, s, t) && !BetweenCalls(s.threads[t].pc)
    requires Free(c, s, t)
    ensures Free(c, Step(c, s, t, choice), t)
  {
    hide PushStep, PopStep, DrainStep, Free;
    if IsPush(s.threads[t].pc) {
      PushStaysFree(c, s, t, choice);
    } else if IsPop(s.threads[t].pc) {
      PopStaysFree(c, s, t, choice);
    } else {
      DrainStaysFree(c, s, t, choice);
    }
  }

  /** Left alone, with its lock free and its gate open, every call returns. */
  lemma {:induction false} FinishesAlone<T>(c: Config<T>, s: State<T>, t: nat)
    returns (schedule: seq<(nat, Choice<T>)>, r: State<T>)
    requires Good(c, s) && t < |s.threads| && Free(c, s, t)
    ensures Reaches(c, s, schedule, r) && t < |r.threads| && BetweenCalls(r.threads[t].pc)
    ensures |schedule| <= Remaining(s.threads[t], |s.chain|) && forall i :: 0 <= i < |schedule| ==> schedule[i].0 == t
    decreases Remaining(s.threads[t], |s.chain|)
  {
    hide Good, Step, Safe, Enabled, Remaining, Shape, Free;
    if BetweenCalls(s.threads[t].pc) {
      schedule, r := [], s;
    } else {
      var choice, s' := NextAlone(c, s, t);
      var rest;
      rest, r := FinishesAlone(c, s', t);
      schedule := [(t, choice)] + rest;
      assert schedule[1..] == rest;
    }
  }

  lemma NextAlone<T>(c: Config<T>, s: State<T>, t: nat) returns (choice: Choice<T>, s': State<T>)
    requires Good(c, s) && t < |s.threads| && Free(c, s, t) && !BetweenCalls(s.threads[t].pc)
    ensures Enabled(c, s, t, choice) && Safe(c, s, t) && s' == Step(c, s, t, choice)
    ensures Good(c, s') && t < |s'.threads| && Free(c, s', t)
    ensures Closer(s, s', t)
  {
    hide Step, Safe, Enabled, Remaining, Shape;
    choice := SomeChoice(c, s, t);
    InvImpliesSafe(c, s, t);
    ShapeOf(c, s, t);
    StepGoesOn(c, s, t, choice);
    StaysFree(c, s, t, choice);
    StepKeepsGood(c, s, t, choice);
    s' := Step(c, s, t, choice);
  }

  /** The same for every reachable state. */
  lemma CallsReturn<T(!new)>(c: Config<T>, threads: nat, s: State<T>, t: nat)
    returns (schedule: seq<(nat, Choice<T>)>, r: State<T>)
    requires Reachable(c, threads, s) && t < threads == |s.threads| && Free(c, s, t)
    ensures Reaches(c, s, schedule, r) && t < |r.threads| && BetweenCalls(r.threads[t].pc)
    ensures |schedule| <= Remaining(s.threads[t], |s.chain|) && forall i :: 0 <= i < |schedule| ==> schedule[i].0 == t
  {
    ReachableIsGood(c, threads, s);
    schedule, r := FinishesAlone(c, s, t);
  }
}
