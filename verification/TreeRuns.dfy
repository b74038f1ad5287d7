/** Readers running beside the writer, over any interleaving of stores. */
module TreeRuns {
  import opened Common
  import opened NodeHeap
  import opened TreeShape
  import opened CbTree

  /** The root shows the map `look` to undisturbed searches. */
  ghost predicate Shows(m: Mem, look: int -> Answer) {
    forall j :: Answers(m.heap, m.root, j, look(j))
  }

  function Update(look: int -> Answer, k: int, target: Answer): int -> Answer {
    j => if j == k then target else look(j)
  }

  lemma ShowsStep(m: Mem, m': Mem, k: int, target: Answer, look: int -> Answer)
    requires Keeps(m, m', k, target) && Shows(m, look)
    ensures Shows(m', look) || Shows(m', Update(look, k, target))
  {
  }

  lemma ShowsStay(m: Mem, m': Mem, k: int, target: Answer, look: int -> Answer)
    requires Keeps(m, m', k, target) && Shows(m, Update(look, k, target))
    ensures Shows(m', Update(look, k, target))
  {
  }

  /** At most one store of an operation changes the map seen from the root:
      the run of memories shows the old map up to some store and the new one
      from that store on. */
  lemma {:induction false} OneStoreSwitches(hist: seq<Mem>, k: int, target: Answer, look: int -> Answer)
      returns (n: nat)
    requires Chain(hist, k, target) && Shows(hist[0], look)
    ensures 1 <= n <= |hist|
    ensures forall i :: 0 <= i < n ==> Shows(hist[i], look)
    ensures forall i :: n <= i < |hist| ==> Shows(hist[i], Update(look, k, target))
    decreases |hist|
  {
    hide Shows;
    if |hist| == 1 {
      n := 1;
    } else {
      var last := |hist| - 1;
      var front := hist[..last];
      forall i: nat | i + 1 < |front| ensures StepAt(front, i, k, target) {
        assert StepAt(hist, i, k, target);
      }
      n := OneStoreSwitches(front, k, target, look);
      assert StepAt(hist, last - 1, k, target);
      if n == last {
        assert Shows(front[last - 1], look);
        ShowsStep(hist[last - 1], hist[last], k, target, look);
        if Shows(hist[last], look) {
          n := |hist|;
        }
      } else {
        assert Shows(front[last - 1], Update(look, k, target));
        ShowsStay(hist[last - 1], hist[last], k, target, look);
      }
      forall i | 0 <= i < last ensures hist[i] == front[i] {}
    }
  }

  /** In the run of a finished operation the map seen from the root is the tree's
      before up to some store and the tree's after from it on. */
  lemma OperationSwitches(w: Writer, before: Tree) returns (n: nat)
    requires w.Traced() && w.Ready() && Rep(w.start.heap, w.start.root, before)
    ensures 1 <= n <= |w.hist|
    ensures forall i, k :: 0 <= i < n ==> Answers(w.hist[i].heap, w.hist[i].root, k, Look(before, k))
    ensures forall i, k :: n <= i < |w.hist| ==> Answers(w.hist[i].heap, w.hist[i].root, k, Look(w.shape, k))
    ensures n == |w.hist| ==> forall k :: Look(w.shape, k) == Look(before, k)
  {
    hide Answers, Rep, Contained, Bst, Ptrs, Look;
    var was := LookOf(before);
    TreeShows(w.start, before);
    assert w.hist[0] == w.start;
    n := OneStoreSwitches(w.hist, w.opKey, w.target, was);
    var last := w.hist[|w.hist| - 1];
    TreeShows(last, w.shape);
    var now := if n == |w.hist| then was else Update(was, w.opKey, w.target);
    assert Shows(w.hist[|w.hist| - 1], now);
    ShowsOnce(last, now, LookOf(w.shape));
    forall i, k | 0 <= i < n ensures Answers(w.hist[i].heap, w.hist[i].root, k, Look(before, k)) {
      ShowsAt(w.hist[i], was, k);
    }
    forall i, k | n <= i < |w.hist| ensures Answers(w.hist[i].heap, w.hist[i].root, k, Look(w.shape, k)) {
      ShowsAt(w.hist[i], now, k);
      assert now(k) == LookOf(w.shape)(k);
    }
    if n == |w.hist| {
      forall k ensures Look(w.shape, k) == Look(before, k) {
        assert now(k) == LookOf(w.shape)(k);
      }
    }
  }

  function LookOf(t: Tree): int -> Answer {
    k => Look(t, k)
  }

  lemma TreeShows(m: Mem, t: Tree)
    requires Rep(m.heap, m.root, t)
    ensures Shows(m, LookOf(t))
  {
    forall j ensures Answers(m.heap, m.root, j, LookOf(t)(j)) {
      RepAnswers(m.heap, m.root, t, j);
    }
  }

  lemma ShowsAt(m: Mem, look: int -> Answer, k: int)
    requires Shows(m, look)
    ensures Answers(m.heap, m.root, k, look(k))
  {
  }

  lemma ShowsOnce(m: Mem, a: int -> Answer, b: int -> Answer)
    requires Shows(m, a) && Shows(m, b)
    ensures forall j :: a(j) == b(j)
  {
    forall j ensures a(j) == b(j) {
      AnswersUnique(m.heap, m.root, j, a(j), b(j));
    }
  }

  // ---- one reader's view -----------------------------------------------------

  /** Memory, and the nodes a reader that began its section at some moment can
      ever stand on: those not discarded before that moment. */
  datatype View = View(mem: Mem, safe: set<Ptr>)

  ghost predicate SafeOrNull(v: View, p: Ptr) {
    p == NULL || p in v.safe
  }

  /** Nothing a search meets on its way leaves the safe nodes. */
  ghost predicate Closed(v: View) {
    && v.safe <= v.mem.heap.Keys && NULL !in v.safe
    && SafeOrNull(v, v.mem.root)
    && forall q :: q in v.safe ==> SafeOrNull(v, v.mem.heap[q].left) && SafeOrNull(v, v.mem.heap[q].right)
  }

  /** One step of the rest of the system, as this reader sees it. */
  ghost predicate ViewStep(v: View, v': View, k: int, target: Answer) {
    && Closed(v) && Closed(v') && v.safe <= v'.safe
    && (forall q :: q in v.safe ==>
          q in v'.mem.heap && v'.mem.heap[q].key == v.mem.heap[q].key && v'.mem.heap[q].value == v.mem.heap[q].value)
    && (forall q, j, r :: SafeOrNull(v, q) && Answers(v.mem.heap, q, j, r) ==>
          Answers(v'.mem.heap, q, j, r) || (j == k && Arrived(v'.mem, q, k, target)))
    && (forall j, r :: Answers(v.mem.heap, v.mem.root, j, r) ==>
          Answers(v'.mem.heap, v'.mem.root, j, r) || (j == k && Arrived(v'.mem, v'.mem.root, k, target)))
  }

  ghost predicate SomeViewStep(v: View, v': View) {
    exists k, target :: ViewStep(v, v', k, target)
  }

  ghost predicate ViewStepAt(vs: seq<View>, i: nat)
    requires i + 1 < |vs|
  {
    SomeViewStep(vs[i], vs[i + 1])
  }

  /** The system during one read section. */
  ghost predicate ViewRun(vs: seq<View>) {
    && |vs| > 0 && Closed(vs[0])
    && forall i: nat :: i + 1 < |vs| ==> ViewStepAt(vs, i)
  }

  /** A tree store by the writer. */
  lemma StoreIsViewStep(v: View, m': Mem, safe': set<Ptr>, k: int, target: Answer)
    requires Closed(v) && Keeps(v.mem, m', k, target)
    requires Closed(View(m', safe')) && v.safe <= safe'
    requires forall q ::
               q in v.safe ==>
                 q in m'.heap && m'.heap[q].key == v.mem.heap[q].key && m'.heap[q].value == v.mem.heap[q].value
    ensures ViewStep(v, View(m', safe'), k, target)
  {
  }

  /** A search from a safe node does not meet reclaimed memory. */
  lemma {:induction false} SearchAvoids(v: View, gone: set<Ptr>, q: Ptr, k: int, fuel: nat, r: Answer)
    requires Closed(v) && v.safe !! gone && SafeOrNull(v, q) && SearchIn(v.mem.heap, q, k, fuel, r)
    ensures SearchIn(v.mem.heap - gone, q, k, fuel, r)
    decreases fuel
  {
    if q != NULL && v.mem.heap[q].key != k {
      SearchAvoids(v, gone, Next(v.mem.heap[q], k), k, fuel - 1, r);
    }
  }

  /** Memory going back to the allocator, none of it safe for this reader. */
  lemma ReclaimIsViewStep(v: View, gone: set<Ptr>)
    requires Closed(v) && v.safe !! gone
    ensures SomeViewStep(v, v.(mem := v.mem.(heap := v.mem.heap - gone)))
  {
    var v' := v.(mem := v.mem.(heap := v.mem.heap - gone));
    forall q, j, r | SafeOrNull(v, q) && Answers(v.mem.heap, q, j, r)
      ensures Answers(v'.mem.heap, q, j, r)
    {
      var f: nat :| SearchIn(v.mem.heap, q, j, f, r);
      SearchAvoids(v, gone, q, j, f, r);
    }
    assert ViewStep(v, v', 0, None);
  }

  /** `r` is what the map answered for `k` at some instant from `a` to `b`. */
  ghost predicate AnsweredBetween(vs: seq<View>, a: nat, b: nat, k: int, r: Answer) {
    exists i :: a <= i <= b < |vs| && Answers(vs[i].mem.heap, vs[i].mem.root, k, r)
  }

  /** Steps under a standing reader: if the node it stands on answers something
      the map answered during the call, it still does later. */
  lemma {:induction false} AnswerCarries(vs: seq<View>, a: nat, i: nat, j: nat, q: Ptr, k: int, r: Answer)
      returns (r': Answer)
    requires ViewRun(vs) && a <= i <= j < |vs| && SafeOrNull(vs[i], q)
    requires Answers(vs[i].mem.heap, q, k, r) && AnsweredBetween(vs, a, i, k, r)
    ensures SafeOrNull(vs[j], q)
    ensures Answers(vs[j].mem.heap, q, k, r') && AnsweredBetween(vs, a, j, k, r')
    ensures q != NULL ==> q in vs[i].mem.heap && q in vs[j].mem.heap
    ensures q != NULL ==>
              vs[j].mem.heap[q].key == vs[i].mem.heap[q].key && vs[j].mem.heap[q].value == vs[i].mem.heap[q].value
    decreases j - i
  {
    ClosedAt(vs, i);
    if i == j {
      r' := r;
    } else {
      assert ViewStepAt(vs, i);
      var key, target :| ViewStep(vs[i], vs[i + 1], key, target);
      var s := if Answers(vs[i + 1].mem.heap, q, k, r) then r else target;
      assert AnsweredBetween(vs, a, i + 1, k, s) by {
        if s == r && Answers(vs[i + 1].mem.heap, q, k, r) {
          var w :| a <= w <= i && Answers(vs[w].mem.heap, vs[w].mem.root, k, r);
        } else {
          assert Arrived(vs[i + 1].mem, q, k, target);
        }
      }
      r' := AnswerCarries(vs, a, i + 1, j, q, k, s);
    }
  }

  lemma {:induction false} ClosedAt(vs: seq<View>, i: nat)
    requires ViewRun(vs) && i < |vs|
    ensures Closed(vs[i])
    decreases i
  {
    if i > 0 {
      assert ViewStepAt(vs, i - 1);
    }
  }

  /** The root answers every key. */
  ghost predicate Total(v: View) {
    forall k :: Answered(v, k)
  }

  ghost predicate Answered(v: View, k: int) {
    exists r :: Answers(v.mem.heap, v.mem.root, k, r)
  }

  /** TreeBB_Find: a pointer-chasing loop while memory changes under it.  `vs` is
      what memory goes through during the call; the key of a node and the
      pointer to its child are each read at some later moment of it.  The loop
      reads allocated nodes only, ends, and returns what the map answered for
      the key at some instant of the call. */
  method TreeBB_Find(vs: seq<View>, needle: int) returns (found: Answer, last: nat)
    requires ViewRun(vs) && Total(vs[0])
    ensures last < |vs| && AnsweredBetween(vs, 0, last, needle, found)
  {
    hide Answers, ViewStepAt;
    var i := 0;
    var node: Ptr := vs[0].mem.root;
    assert Answered(vs[0], needle);
    ghost var r: Answer :| Answers(vs[0].mem.heap, vs[0].mem.root, needle, r);
    ghost var fuel: nat := Fuel(vs[0].mem.heap, node, needle, r);
    while node != NULL
      invariant i < |vs| && SafeOrNull(vs[i], node)
      invariant SearchIn(vs[i].mem.heap, node, needle, fuel, r)
      invariant AnsweredBetween(vs, 0, i, needle, r)
      decreases |vs| - i, fuel
    {
      ClosedAt(vs, i);
      var n := vs[i].mem.heap[node];
      if n.key == needle {
        return Some(n.value), i;
      }
      var j :| i <= j < |vs|;
      ghost var g := fuel;
      if j > i {
        FuelAnswers(vs[i].mem.heap, node, needle, fuel, r);
        r := AnswerCarries(vs, 0, i, j, node, needle, r);
        g := Fuel(vs[j].mem.heap, node, needle, r);
      }
      ClosedAt(vs, j);
      var c: Ptr := if needle < n.key then vs[j].mem.heap[node].left else vs[j].mem.heap[node].right;
      i, node, fuel := j, c, g - 1;
    }
    return None, i;
  }

  lemma FuelAnswers(h: Heap, q: Ptr, k: int, fuel: nat, r: Answer)
    requires SearchIn(h, q, k, fuel, r)
    ensures Answers(h, q, k, r)
  {
  }

  lemma Fuel(h: Heap, q: Ptr, k: int, r: Answer) returns (fuel: nat)
    requires Answers(h, q, k, r)
    ensures SearchIn(h, q, k, fuel, r)
  {
    fuel :| SearchIn(h, q, k, fuel, r);
  }
}
