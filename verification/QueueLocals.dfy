/** What each statement does to the locals of the thread that executes it. */
module QueueLocals {
  import opened Bytes
  import opened ConcurrentQueue
  import opened QueueInvariant
  import opened QueueSteps
  import opened QueueMoves

  // PushBack

  /** The nodes built so far, and one more in a fresh node that points nowhere. */
  lemma BuildOneMore<T>(heap: map<Id, Node<T>>, own: seq<Id>, vals: seq<T>, id: Id)
    requires |own| < |vals| && PointsTo(heap, own, None) && Holds(heap, own, vals[..|own|]) && id !in heap
    ensures var heap' := heap[id := Node(vals[|own|], None)];
            PointsTo(heap', own, None) && Holds(heap', own + [id], vals[..|own| + 1])
  {
    var n := |own|;
    var heap' := heap[id := Node(vals[n], None)];
    PointsToFrame(heap, heap', own, None);
    HoldsFrame(heap, heap', own, vals[..n]);
    HoldsConcat(heap', own, [id], vals[..n], [vals[n]]);
    assert vals[..n] + [vals[n]] == vals[..n + 1];
  }

  lemma FirstAllocLocal<T>(c: Config<T>, vals: seq<T>, heap: map<Id, Node<T>>, chain: seq<Id>, id: Id)
    requires chain != [] && vals != [] && id !in heap
    ensures LocalOk(c, Thread(AfterAlloc(vals, 1), [id], []), heap[id := Node(vals[0], None)], chain)
  {
    BuildOneMore(heap, [], vals, id);
    assert [] + [id] == [id];
  }

  lemma AllocLocal<T>(c: Config<T>, th: Thread<T>, heap: map<Id, Node<T>>, chain: seq<Id>, id: Id)
    requires chain != [] && th.pc.Alloc? && th.own != [] && LocalOk(c, th, heap, chain)
    requires id !in heap
    ensures var vals, n := th.pc.vals, |th.own|;
            n < |vals| && LocalOk(c, Thread(Tie(vals), th.own + [id], []), heap[id := Node(vals[n], None)], chain)
  {
    BuildOneMore(heap, th.own, th.pc.vals, id);
    assert (th.own + [id])[..|th.own|] == th.own;
  }

  /** Tying the last node to the ones before it. */
  lemma TieOneMore<T>(heap: map<Id, Node<T>>, own: seq<Id>)
    requires |own| >= 2 && Distinct(own) && PointsTo(heap, own[..|own| - 1], None)
    requires Last(own) in heap && heap[Last(own)].next == None
    ensures PointsTo(SetNext(heap, own[|own| - 2], Last(own)), own, None)
  {
    var before, entry := own[..|own| - 1], [Last(own)];
    assert own == before + entry;
    PointsToConcat(heap, before, entry, None);
  }

  lemma TieLocal<T>(c: Config<T>, th: Thread<T>, heap: map<Id, Node<T>>, chain: seq<Id>)
    requires chain != [] && th.pc.Tie? && LocalOk(c, th, heap, chain) && Distinct(th.own)
    requires |th.own| >= 2 && th.own[|th.own| - 2] in heap
    ensures LocalOk(c, th.(pc := AfterAlloc(th.pc.vals, |th.own|)),
                    SetNext(heap, th.own[|th.own| - 2], Last(th.own)), chain)
  {
    var th' := th.(pc := AfterAlloc(th.pc.vals, |th.own|));
    assert Tied(th') == th.own && Holding(th') == th.own && Spoken(th') == Spoken(th) && End(th', chain[0]) == None;
    TieOneMore(heap, th.own);
    HoldsAfterSetNext(heap, th.own[|th.own| - 2], Last(th.own), th.own, Spoken(th));
  }

  // PopFront under the lock

  lemma AdvanceLocal<T>(c: Config<T>, th: Thread<T>, heap: map<Id, Node<T>>, chain: seq<Id>)
    requires |chain| >= 2 && th.pc.Advance? && LocalOk(c, th, heap, chain) && chain[1] in heap
    ensures LocalOk(c, Thread(Copy(th.pc.prior), th.own + [chain[0]], th.got + [heap[chain[1]].value]),
                    heap, chain[1..])
  {
    assert th.own + [chain[0]] == [th.pc.prior];
  }

  lemma PointsToAppend<T>(heap: map<Id, Node<T>>, ids: seq<Id>, x: Id, end: Option<Id>)
    requires PointsTo(heap, ids, Some(x)) && x in heap && heap[x].next == end
    ensures PointsTo(heap, ids + [x], end)
  {
    forall i | 0 <= i < |ids + [x]| ensures heap[(ids + [x])[i]].next == Successor(ids + [x], i, end) {
      if i < |ids| {
        assert heap[ids[i]].next == Successor(ids, i, Some(x));
      }
    }
  }

  /** A walk with `n` nodes behind it: all but the first hold the values before the last
      one it took, and the last one is still at the front. */
  lemma WalkHoldsMore<T>(heap: map<Id, Node<T>>, own: seq<Id>, front: Id, got: seq<T>, v: T)
    requires |own| == |got| && Holds(heap, Tail(own), Slice(got, 0, |got| - 1)) && front in heap
    requires got != [] ==> heap[front].value == Last(got)
    ensures Holds(heap, Tail(own + [front]), Slice(got + [v], 0, |got|))
  {
    if got != [] {
      HoldsConcat(heap, Tail(own), [front], got[..|got| - 1], [Last(got)]);
      assert Tail(own + [front]) == Tail(own) + [front];
      assert Slice(got + [v], 0, |got|) == got[..|got| - 1] + [Last(got)];
    }
  }

  lemma WalkHopLocal<T>(c: Config<T>, th: Thread<T>, heap: map<Id, Node<T>>, chain: seq<Id>)
    requires |chain| >= 2 && th.pc.WalkHop? && LocalOk(c, th, heap, chain) && PointsTo(heap, chain, None)
    ensures LocalOk(c, Thread(WalkTest(th.pc.prior, th.pc.n + 1, th.pc.target), th.own + [chain[0]],
                              th.got + [heap[chain[1]].value]),
                    heap, chain[1..])
  {
    assert heap[chain[0]].next == Successor(chain, 0, None);
    PointsToAppend(heap, th.own, chain[0], Some(chain[1]));
    WalkHoldsMore(heap, th.own, chain[0], th.got, heap[chain[1]].value);
    assert (th.own + [chain[0]] + [chain[1]])[0] == th.pc.prior;
  }

  // PopFront after the lock

  lemma DeleteOneLocal<T>(c: Config<T>, th: Thread<T>, heap: map<Id, Node<T>>, chain: seq<Id>)
    requires chain != [] && th.pc.DeleteOne? && LocalOk(c, th, heap, chain)
    ensures th.own == [th.pc.prior]
    ensures LocalOk(c, Thread(CountDown(th.pc.result), Except(th.own, 0), th.got), heap - {th.pc.prior}, chain)
  {
    hide BulkShape, Filled, Delivered;
  }

  /** The next pc of a draining statement that deletes nothing. */
  function Drained<T>(c: Config<T>, pc: Pc<T>, heap: map<Id, Node<T>>): Pc<T> {
    match pc
    case Resize(b) => Enter(b, Resized(b.target, b.n, c.blank))
    case Enter(b, results) => if HasNext(heap, b.prior) then DrainTest(b, results, heap[b.prior].next.value, 0) else pc
    case DrainTest(b, results, entry, i) =>
      if entry != b.newFront then DrainCopy(b, results, entry, i) else DeleteOld(b, results)
    case DrainCopy(b, results, entry, i) =>
      if entry in heap && i < |results| then DrainNext(b, results[i := heap[entry].value], entry, i) else pc
    case DrainNext(b, results, entry, i) =>
      if HasNext(heap, entry) then DrainDelete(b, results, heap[entry].next.value, i + 1, entry) else pc
    case _ => pc
  }

  lemma ResizeLocal<T>(c: Config<T>, th: Thread<T>, heap: map<Id, Node<T>>, chain: seq<Id>)
    requires chain != [] && th.pc.Resize? && LocalOk(c, th, heap, chain)
    ensures LocalOk(c, th.(pc := Drained(c, th.pc, heap)), heap, chain)
  {
  }

  lemma EnterLocal<T>(c: Config<T>, th: Thread<T>, heap: map<Id, Node<T>>, chain: seq<Id>)
    requires chain != [] && th.pc.Enter? && LocalOk(c, th, heap, chain)
    ensures LocalOk(c, th.(pc := Drained(c, th.pc, heap)), heap, chain)
  {
    var b := th.pc.b;
    assert heap[th.own[0]].next == Successor(th.own, 0, Some(b.newFront));
    PointsToTail(heap, th.own, Some(b.newFront));
  }

  /** The drain has reached the node it stops at exactly when one node is left. */
  lemma DrainEnds<T>(th: Thread<T>, b: Bulk<T>, entry: Id)
    requires th.own != [] && b.newFront !in th.own && entry == (th.own + [b.newFront])[1]
    ensures entry == b.newFront <==> |th.own| == 1
  {
    if |th.own| > 1 {
      assert entry in th.own;
    }
  }

  lemma DrainTestShape<T>(c: Config<T>, th: Thread<T>, heap: map<Id, Node<T>>, chain: seq<Id>)
    requires chain != [] && th.pc.DrainTest? && Shape(c, th, chain)
    ensures var th' := th.(pc := Drained(c, th.pc, heap)); Shape(c, th', chain) && SameView(th, th', chain[0])
  {
    DrainEnds(th, th.pc.b, th.pc.entry);
  }

  lemma DrainTestLocal<T>(c: Config<T>, th: Thread<T>, heap: map<Id, Node<T>>, chain: seq<Id>)
    requires chain != [] && th.pc.DrainTest? && LocalOk(c, th, heap, chain)
    ensures LocalOk(c, th.(pc := Drained(c, th.pc, heap)), heap, chain)
  {
    DrainTestShape(c, th, heap, chain);
    SameViewLocal(c, th, th.(pc := Drained(c, th.pc, heap)), heap, chain);
  }

  lemma DrainCopyShape<T>(c: Config<T>, th: Thread<T>, chain: seq<Id>)
    requires chain != [] && th.pc.DrainCopy? && Shape(c, th, chain)
    ensures var i, results := th.pc.i, th.pc.results;
            && i + 1 < |th.got| == |results| && |th.own| > 1 && th.pc.entry == th.own[1]
            && Shape(c, th.(pc := DrainNext(th.pc.b, results[i := th.got[i]], th.pc.entry, i)), chain)
  {
    var i, results := th.pc.i, th.pc.results;
    assert results[i := th.got[i]][..i + 1] == results[..i] + [th.got[i]];
    assert th.got[..i + 1] == th.got[..i] + [th.got[i]];
  }

  lemma FirstHeld<T>(heap: map<Id, Node<T>>, own: seq<Id>, got: seq<T>, i: nat)
    requires |own| > 1 && i + 1 < |got| && Holds(heap, own[1..], got[i..|got| - 1])
    ensures own[1] in heap && heap[own[1]].value == got[i]
  {
    assert own[1..][0] == own[1];
    assert got[i..|got| - 1][0] == got[i];
  }

  /** The locals after the copy of a drained value. */
  function Copied<T>(th: Thread<T>): Thread<T>
    requires th.pc.DrainCopy? && th.pc.i < |th.got| && th.pc.i < |th.pc.results|
  {
    var b, i := th.pc.b, th.pc.i;
    th.(pc := DrainNext(b, th.pc.results[i := th.got[i]], th.pc.entry, i))
  }

  lemma DrainCopyView<T>(th: Thread<T>, front: Id)
    requires th.pc.DrainCopy? && |th.own| > 1 && th.pc.i + 1 < |th.got| && th.pc.i < |th.pc.results|
    ensures Holding(th) == th.own[1..] && Spoken(th) == th.got[th.pc.i..|th.got| - 1]
    ensures SameView(th, Copied(th), front)
  {
  }

  lemma DrainCopyLocal<T>(c: Config<T>, th: Thread<T>, heap: map<Id, Node<T>>, chain: seq<Id>)
    requires chain != [] && th.pc.DrainCopy? && LocalOk(c, th, heap, chain)
    ensures LocalOk(c, th.(pc := Drained(c, th.pc, heap)), heap, chain)
  {
    DrainCopyShape(c, th, chain);
    DrainCopyView(th, chain[0]);
    FirstHeld(heap, th.own, th.got, th.pc.i);
    SameViewLocal(c, th, Copied(th), heap, chain);
    assert Drained(c, th.pc, heap) == Copied(th).pc;
  }

  lemma DrainNextShape<T>(c: Config<T>, th: Thread<T>, chain: seq<Id>)
    requires chain != [] && th.pc.DrainNext? && Shape(c, th, chain)
    ensures |th.own| >= 2 && th.pc.entry == th.own[1]
    ensures var b, next := th.pc.b, (th.own + [th.pc.b.newFront])[2];
            && Successor(Tail(th.own), 0, Some(b.newFront)) == Some(next)
            && Shape(c, th.(pc := DrainDelete(b, th.pc.results, next, th.pc.i + 1, th.pc.entry)), chain)
  {
  }

  lemma DrainNextLocal<T>(c: Config<T>, th: Thread<T>, heap: map<Id, Node<T>>, chain: seq<Id>)
    requires chain != [] && th.pc.DrainNext? && LocalOk(c, th, heap, chain)
    ensures LocalOk(c, th.(pc := Drained(c, th.pc, heap)), heap, chain)
  {
    DrainNextShape(c, th, chain);
    assert Tail(th.own)[0] == th.pc.entry;
    var th' := th.(pc := Drained(c, th.pc, heap));
    SameViewLocal(c, th, th', heap, chain);
  }

  lemma DrainDeleteShape<T>(c: Config<T>, th: Thread<T>, chain: seq<Id>)
    requires chain != [] && th.pc.DrainDelete? && Shape(c, th, chain) && Distinct(th.own)
    ensures |th.own| > 1 && th.own[1] == th.pc.doomed
    ensures Tail(Except(th.own, 1)) == Tail(th.own)[1..] && th.pc.doomed !in Tail(th.own)[1..]
    ensures Shape(c, Thread(DrainTest(th.pc.b, th.pc.results, th.pc.entry, th.pc.i), Except(th.own, 1), th.got), chain)
  {
    ExceptOnce(th.own, 1);
    assert Except(th.own, 1) == [th.own[0]] + Tail(th.own)[1..];
  }

  /** Deleting the first of the nodes to drain leaves the others as they were. */
  lemma DropFirst<T>(heap: map<Id, Node<T>>, ids: seq<Id>, end: Option<Id>, vals: seq<T>)
    requires ids != [] && ids[0] !in ids[1..] && PointsTo(heap, ids, end) && Holds(heap, ids, vals)
    ensures PointsTo(heap - {ids[0]}, ids[1..], end) && Holds(heap - {ids[0]}, ids[1..], vals[1..])
  {
    PointsToTail(heap, ids, end);
    HoldsTail(heap, ids, vals);
    PointsToFrame(heap, heap - {ids[0]}, ids[1..], end);
    HoldsFrame(heap, heap - {ids[0]}, ids[1..], vals[1..]);
  }

  lemma DrainDeleteLocal<T>(c: Config<T>, th: Thread<T>, heap: map<Id, Node<T>>, chain: seq<Id>)
    requires chain != [] && th.pc.DrainDelete? && LocalOk(c, th, heap, chain) && Distinct(th.own)
    ensures |th.own| > 1 && th.own[1] == th.pc.doomed
    ensures LocalOk(c, Thread(DrainTest(th.pc.b, th.pc.results, th.pc.entry, th.pc.i), Except(th.own, 1), th.got),
                    heap - {th.pc.doomed}, chain)
  {
    hide Delivered, Filled;
    var th' := Thread(DrainTest(th.pc.b, th.pc.results, th.pc.entry, th.pc.i), Except(th.own, 1), th.got);
    DrainDeleteShape(c, th, chain);
    DropFirst(heap, Tail(th.own), Some(th.pc.b.newFront), Spoken(th));
    assert Spoken(th)[1..] == Spoken(th');
  }

  lemma DeleteOldShape<T>(c: Config<T>, th: Thread<T>, chain: seq<Id>)
    requires chain != [] && th.pc.DeleteOld? && Shape(c, th, chain)
    ensures var b, results := th.pc.b, th.pc.results;
            && th.own == [b.prior] && |results| >= 1
            && Delivered(c, th.got, b, Finished(b, results))
  {
  }

  lemma GotManyLocal<T>(c: Config<T>, got: seq<T>, b: Bulk<T>, results: seq<T>, heap: map<Id, Node<T>>, chain: seq<Id>)
    requires chain != [] && Delivered(c, got, b, results)
    ensures LocalOk(c, Thread(GotMany(b, results), [], got), heap, chain)
  {
  }
}
