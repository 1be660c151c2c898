/** Every reachable state of the queue satisfies the invariant, and what follows from it. */
module QueueRuns {
  import opened Bytes
  import opened ConcurrentQueue
  import opened QueueInvariant
  import opened QueueSteps
  import opened QueueMoves
  import opened QueueLocals

  // PushBack

  /** A thread that owns no node and has nothing to remember. */
  lemma EmptyHandedLocal<T>(c: Config<T>, th: Thread<T>, heap: map<Id, Node<T>>, chain: seq<Id>)
    requires chain != [] && th.own == []
    requires th.pc.Idle? || (th.pc.Gate? && th.pc.vals != []) || (th.pc.Alloc? && th.pc.vals != [])
             || (th.pc.AcquirePop? && th.got == [])
    ensures LocalOk(c, th, heap, chain)
  {
  }

  lemma GateIsStep<T>(c: Config<T>, s: State<T>, t: nat, choice: Choice<T>)
    requires t < |s.threads| && Enabled(c, s, t, choice) && Safe(c, s, t) && s.threads[t].pc.Gate?
    ensures PushStep(c, s, t, choice) ==
            if s.length > c.maxLength then s
            else Put(s, t, s.threads[t].(pc := Alloc(s.threads[t].pc.vals))).(length := s.length)
  {
  }

  lemma ShapeOf<T>(c: Config<T>, s: State<T>, t: nat)
    requires Inv(c, s) && t < |s.threads|
    ensures Shape(c, s.threads[t], s.chain)
  {
  }

  lemma GateSteps<T>(c: Config<T>, s: State<T>, t: nat, choice: Choice<T>)
    requires Ready(c, s, t, choice) && s.threads[t].pc.Gate?
    ensures Inv(c, PushStep(c, s, t, choice))
  {
    var th := s.threads[t].(pc := Alloc(s.threads[t].pc.vals));
    ShapeOf(c, s, t);
    EmptyHandedLocal(c, th, s.heap, s.chain);
    MoveKeepsInv(c, s, t, th, s.length);
    GateIsStep(c, s, t, choice);
  }

  lemma CountUpIsStep<T>(c: Config<T>, s: State<T>, t: nat, choice: Choice<T>)
    requires t < |s.threads| && Enabled(c, s, t, choice) && Safe(c, s, t) && s.threads[t].pc.CountUp?
    ensures PushStep(c, s, t, choice) ==
            Put(s, t, s.threads[t].(pc := Idle)).(length := (s.length + s.threads[t].pc.n) % TWO_TO_64)
  {
  }

  lemma CountUpSteps<T>(c: Config<T>, s: State<T>, t: nat, choice: Choice<T>)
    requires Ready(c, s, t, choice) && s.threads[t].pc.CountUp?
    ensures Inv(c, PushStep(c, s, t, choice))
  {
    hide LocalOk, Ownership, Locked, Fifo, Safe, Enabled, Shape;
    var th := s.threads[t].(pc := Idle);
    ShapeOf(c, s, t);
    EmptyHandedLocal(c, th, s.heap, s.chain);
    CountUpIsStep(c, s, t, choice);
    MoveKeepsInv(c, s, t, th, (s.length + s.threads[t].pc.n) % TWO_TO_64);
  }

  lemma FirstAllocSteps<T>(c: Config<T>, s: State<T>, t: nat, choice: Choice<T>)
    requires Ready(c, s, t, choice) && s.threads[t].pc.Alloc? && s.threads[t].own == []
    ensures Inv(c, PushStep(c, s, t, choice))
  {
    var vals := s.threads[t].pc.vals;
    ShapeOf(c, s, t);
    FirstAllocLocal(c, vals, s.heap, s.chain, choice.id);
    AllocKeepsInv(c, s, t, vals, choice.id);
    assert [] + [choice.id] == [choice.id];
  }

  lemma AllocSteps<T>(c: Config<T>, s: State<T>, t: nat, choice: Choice<T>)
    requires Ready(c, s, t, choice) && s.threads[t].pc.Alloc? && s.threads[t].own != []
    ensures Inv(c, PushStep(c, s, t, choice))
  {
    AllocLocal(c, s.threads[t], s.heap, s.chain, choice.id);
    AllocKeepsInv(c, s, t, s.threads[t].pc.vals, choice.id);
  }

  lemma TieSteps<T>(c: Config<T>, s: State<T>, t: nat, choice: Choice<T>)
    requires Ready(c, s, t, choice) && s.threads[t].pc.Tie?
    ensures Inv(c, PushStep(c, s, t, choice))
  {
    OwnIsLive(s, t);
    TieLocal(c, s.threads[t], s.heap, s.chain);
    TieKeepsInv(c, s, t, s.threads[t].pc.vals);
  }

  lemma PushSteps<T>(c: Config<T>, s: State<T>, t: nat, choice: Choice<T>)
    requires Ready(c, s, t, choice) && IsPush(s.threads[t].pc)
    ensures Inv(c, PushStep(c, s, t, choice))
  {
    var pc := s.threads[t].pc;
    if pc.Gate? {
      GateSteps(c, s, t, choice);
    } else if pc.Alloc? {
      if s.threads[t].own == [] {
        FirstAllocSteps(c, s, t, choice);
      } else {
        AllocSteps(c, s, t, choice);
      }
    } else if pc.Tie? {
      TieSteps(c, s, t, choice);
    } else if pc.Link? {
      LinkKeepsInv(c, s, t);
    } else if pc.CountUp? {
      CountUpSteps(c, s, t, choice);
    } else {
      PushLockSteps(c, s, t, choice);
    }
  }

  // PopFront

  lemma AdvanceSteps<T>(c: Config<T>, s: State<T>, t: nat, choice: Choice<T>)
    requires Ready(c, s, t, choice) && s.threads[t].pc.Advance?
    ensures Inv(c, PopStep(c, s, t, choice))
  {
    ShapeOf(c, s, t);
    FrontIsLive(s);
    AdvanceLocal(c, s.threads[t], s.heap, s.chain);
    DetachKeepsInv(c, s, t, Copy(s.threads[t].pc.prior));
  }

  lemma WalkHopIsStep<T>(c: Config<T>, s: State<T>, t: nat, choice: Choice<T>)
    requires t < |s.threads| && Enabled(c, s, t, choice) && Safe(c, s, t) && s.threads[t].pc.WalkHop?
    ensures var pc := s.threads[t].pc;
            PopStep(c, s, t, choice) == Detach(s, t, WalkTest(pc.prior, pc.n + 1, pc.target))
  {
  }

  lemma WalkHopSteps<T>(c: Config<T>, s: State<T>, t: nat, choice: Choice<T>)
    requires Ready(c, s, t, choice) && s.threads[t].pc.WalkHop?
    ensures Inv(c, PopStep(c, s, t, choice))
  {
    hide PopStep, LocalOk, Detach;
    var th := s.threads[t];
    ShapeOf(c, s, t);
    FrontIsLive(s);
    WalkHopLocal(c, th, s.heap, s.chain);
    WalkHopIsStep(c, s, t, choice);
    DetachKeepsInv(c, s, t, WalkTest(th.pc.prior, th.pc.n + 1, th.pc.target));
  }

  lemma DeleteOneSteps<T>(c: Config<T>, s: State<T>, t: nat, choice: Choice<T>)
    requires Ready(c, s, t, choice) && s.threads[t].pc.DeleteOne?
    ensures Inv(c, PopStep(c, s, t, choice))
  {
    var th := s.threads[t];
    assert LocalOk(c, th, s.heap, s.chain);
    DeleteOneLocal(c, th, s.heap, s.chain);
    DeleteKeepsInv(c, s, t, 0, CountDown(th.pc.result));
  }

  lemma PopSteps<T>(c: Config<T>, s: State<T>, t: nat, choice: Choice<T>)
    requires Ready(c, s, t, choice) && IsPop(s.threads[t].pc)
    ensures Inv(c, PopStep(c, s, t, choice))
  {
    var pc := s.threads[t].pc;
    if pc.Advance? {
      AdvanceSteps(c, s, t, choice);
    } else if pc.WalkHop? {
      WalkHopSteps(c, s, t, choice);
    } else if pc.DeleteOne? {
      DeleteOneSteps(c, s, t, choice);
    } else if ReadsOnly(pc) {
      OnwardSteps(c, s, t, choice);
    } else {
      PopLockSteps(c, s, t, choice);
    }
  }

  lemma DrainReadLocal<T>(c: Config<T>, th: Thread<T>, heap: map<Id, Node<T>>, chain: seq<Id>)
    requires chain != [] && LocalOk(c, th, heap, chain)
    requires IsDrain(th.pc) && !th.pc.DrainDelete? && !th.pc.DeleteOld?
    ensures LocalOk(c, th.(pc := Drained(c, th.pc, heap)), heap, chain)
  {
    match th.pc
    case Resize(_) => ResizeLocal(c, th, heap, chain);
    case Enter(_, _) => EnterLocal(c, th, heap, chain);
    case DrainTest(_, _, _, _) => DrainTestLocal(c, th, heap, chain);
    case DrainCopy(_, _, _, _) => DrainCopyLocal(c, th, heap, chain);
    case DrainNext(_, _, _, _) => DrainNextLocal(c, th, heap, chain);
  }

  lemma DrainedIsStep<T>(c: Config<T>, s: State<T>, t: nat, choice: Choice<T>)
    requires t < |s.threads| && Enabled(c, s, t, choice) && Safe(c, s, t)
    requires IsDrain(s.threads[t].pc) && !s.threads[t].pc.DrainDelete? && !s.threads[t].pc.DeleteOld?
    ensures DrainStep(c, s, t, choice)
            == Put(s, t, s.threads[t].(pc := Drained(c, s.threads[t].pc, s.heap))).(length := s.length)
  {
  }

  lemma DrainedLocks<T>(c: Config<T>, pc: Pc<T>, heap: map<Id, Node<T>>)
    requires IsDrain(pc)
    ensures !InPush(pc) && !InPop(pc) && !InPush(Drained(c, pc, heap)) && !InPop(Drained(c, pc, heap))
  {
  }

  lemma DrainReadSteps<T>(c: Config<T>, s: State<T>, t: nat, choice: Choice<T>)
    requires Ready(c, s, t, choice)
    requires IsDrain(s.threads[t].pc) && !s.threads[t].pc.DrainDelete? && !s.threads[t].pc.DeleteOld?
    ensures Inv(c, DrainStep(c, s, t, choice))
  {
    var th := s.threads[t];
    DrainReadLocal(c, th, s.heap, s.chain);
    DrainedIsStep(c, s, t, choice);
    DrainedLocks(c, th.pc, s.heap);
    MoveKeepsInv(c, s, t, th.(pc := Drained(c, th.pc, s.heap)), s.length);
  }

  lemma DrainDeleteSteps<T>(c: Config<T>, s: State<T>, t: nat, choice: Choice<T>)
    requires Ready(c, s, t, choice) && s.threads[t].pc.DrainDelete?
    ensures Inv(c, DrainStep(c, s, t, choice))
  {
    var th := s.threads[t];
    OwnIsLive(s, t);
    DrainDeleteLocal(c, th, s.heap, s.chain);
    DeleteKeepsInv(c, s, t, 1, DrainTest(th.pc.b, th.pc.results, th.pc.entry, th.pc.i));
  }

  lemma DeleteOldIsStep<T>(c: Config<T>, s: State<T>, t: nat, choice: Choice<T>)
    requires t < |s.threads| && Enabled(c, s, t, choice) && Safe(c, s, t) && s.threads[t].pc.DeleteOld?
    ensures var b, results := s.threads[t].pc.b, s.threads[t].pc.results;
            DrainStep(c, s, t, choice) == Delete(s, t, b.prior, 0, GotMany(b, Finished(b, results)))
  {
  }

  lemma DeleteOldLocal<T>(c: Config<T>, th: Thread<T>, heap: map<Id, Node<T>>, chain: seq<Id>)
    requires chain != [] && th.pc.DeleteOld? && Shape(c, th, chain)
    ensures th.own == [th.pc.b.prior]
    ensures LocalOk(c, Thread(GotMany(th.pc.b, Finished(th.pc.b, th.pc.results)), Except(th.own, 0), th.got),
                    heap, chain)
  {
    DeleteOldShape(c, th, chain);
    assert Except(th.own, 0) == [];
    GotManyLocal(c, th.got, th.pc.b, Finished(th.pc.b, th.pc.results), heap, chain);
  }

  lemma DeleteOldSteps<T>(c: Config<T>, s: State<T>, t: nat, choice: Choice<T>)
    requires Ready(c, s, t, choice) && s.threads[t].pc.DeleteOld?
    ensures Inv(c, DrainStep(c, s, t, choice))
  {
    var th := s.threads[t];
    ShapeOf(c, s, t);
    DeleteOldLocal(c, th, s.heap - {th.pc.b.prior}, s.chain);
    DeleteOldIsStep(c, s, t, choice);
    DeleteKeepsInv(c, s, t, 0, GotMany(th.pc.b, Finished(th.pc.b, th.pc.results)));
  }

  lemma DrainSteps<T>(c: Config<T>, s: State<T>, t: nat, choice: Choice<T>)
    requires Ready(c, s, t, choice) && IsDrain(s.threads[t].pc)
    ensures Inv(c, DrainStep(c, s, t, choice))
  {
    var pc := s.threads[t].pc;
    if pc.DrainDelete? {
      DrainDeleteSteps(c, s, t, choice);
    } else if pc.DeleteOld? {
      DeleteOldSteps(c, s, t, choice);
    } else {
      DrainReadSteps(c, s, t, choice);
    }
  }

  // Between calls

  predicate BetweenCalls<T>(pc: Pc<T>) {
    pc.Idle? || pc.GotOne? || pc.GotMany?
  }

  function NextCall<T>(th: Thread<T>, choice: Choice<T>): Thread<T> {
    if choice.CallPush? then Thread(Gate(choice.vals), [], [])
    else if choice.CallPop? then Thread(AcquirePop(choice.many, choice.target), [], [])
    else th.(pc := Idle)
  }

  lemma CallIsStep<T>(c: Config<T>, s: State<T>, t: nat, choice: Choice<T>)
    requires t < |s.threads| && Enabled(c, s, t, choice) && Safe(c, s, t) && BetweenCalls(s.threads[t].pc)
    ensures Step(c, s, t, choice) == Put(s, t, NextCall(s.threads[t], choice)).(length := s.length)
    ensures choice.CallPush? ==> choice.vals != []
  {
  }

  lemma NextCallIsEmptyHanded<T>(th: Thread<T>, choice: Choice<T>)
    requires BetweenCalls(th.pc) && th.own == []
    ensures var r := NextCall(th, choice);
            && r.own == []
            && (r.pc.Idle? || r.pc.Gate? || (r.pc.AcquirePop? && r.got == []))
            && (r.pc.Gate? ==> choice.CallPush? && r.pc.vals == choice.vals)
            && !InPush(r.pc) && !InPop(r.pc) && !InPush(th.pc) && !InPop(th.pc)
  {
  }

  lemma CallSteps<T>(c: Config<T>, s: State<T>, t: nat, choice: Choice<T>)
    requires Ready(c, s, t, choice) && BetweenCalls(s.threads[t].pc)
    ensures Inv(c, Step(c, s, t, choice))
  {
    var th := NextCall(s.threads[t], choice);
    ShapeOf(c, s, t);
    CallIsStep(c, s, t, choice);
    NextCallIsEmptyHanded(s.threads[t], choice);
    EmptyHandedLocal(c, th, s.heap, s.chain);
    MoveKeepsInv(c, s, t, th, s.length);
  }

  lemma StepKeepsInv<T>(c: Config<T>, s: State<T>, t: nat, choice: Choice<T>)
    requires Ready(c, s, t, choice)
    ensures Inv(c, Step(c, s, t, choice))
  {
    var pc := s.threads[t].pc;
    if IsPush(pc) {
      PushSteps(c, s, t, choice);
    } else if IsPop(pc) {
      PopSteps(c, s, t, choice);
    } else if IsDrain(pc) {
      DrainSteps(c, s, t, choice);
    } else {
      CallSteps(c, s, t, choice);
    }
  }
}
