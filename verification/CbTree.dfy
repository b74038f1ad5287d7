/** The writer of the concurrent weight-balanced tree.

    Every method works on the shared node memory in place, and `hist` keeps the
    memory after every single store, so that readers interleaved at any point
    can be reasoned about. */
module CbTree {
  import opened Common
  import opened NodeHeap
  import opened PlainTree
  import opened TreeShape

  /** Writer-side state at one moment: memory, discarded nodes, nodes handed
      out by the allocator since the operation began. */
  datatype Snap = Snap(mem: Mem, freed: seq<Ptr>, born: multiset<Ptr>)

  /** From `s` to `s'` the writer consumed the nodes `take` and left the nodes
      `give` in their place: stores went to `take` only, answers were kept, and
      every node taken or newly allocated was either given back or discarded,
      exactly once. */
  ghost predicate Rewrites(s: Snap, s': Snap, take: multiset<Ptr>, give: multiset<Ptr>, k: int, target: Answer) {
    && s'.mem.root == s.mem.root
    && Keeps(s.mem, s'.mem, k, target)
    && (forall x :: x in s.mem.heap && x !in take ==> x in s'.mem.heap && s'.mem.heap[x] == s.mem.heap[x])
    && (forall x :: x in s.mem.heap ==> s'.born[x] == s.born[x])
    && s.born <= s'.born
    && s.freed <= s'.freed
    && give + multiset(s'.freed) + s.born == take + multiset(s.freed) + s'.born
  }

  lemma PrefixBag(a: seq<Ptr>, b: seq<Ptr>)
    requires a <= b
    ensures multiset(a) <= multiset(b)
  {
    assert b == a + b[|a|..];
  }

  /** Rewriting composes, also when the second step works on more nodes. */
  lemma RewritesTrans(s0: Snap, s1: Snap, s2: Snap, a: multiset<Ptr>, b: multiset<Ptr>, c: multiset<Ptr>,
      d: multiset<Ptr>, k: int, target: Answer)
    requires Rewrites(s0, s1, a, b, k, target) && Rewrites(s1, s2, b + c, d, k, target)
    ensures Rewrites(s0, s2, a + c, d, k, target)
  {
    KeepsTrans(s0.mem, s1.mem, s2.mem, k, target);
    PrefixBag(s0.freed, s1.freed);
    forall x | x in s0.mem.heap && x !in a + c
      ensures x in s2.mem.heap && s2.mem.heap[x] == s0.mem.heap[x]
    {
      assert (b + multiset(s1.freed) + s0.born)[x] == (a + multiset(s0.freed) + s1.born)[x];
      assert multiset(s0.freed)[x] <= multiset(s1.freed)[x];
      assert x !in b + c;
    }
    forall x
      ensures (d + multiset(s2.freed) + s0.born)[x] == (a + c + multiset(s0.freed) + s2.born)[x]
    {
      assert (b + multiset(s1.freed) + s0.born)[x] == (a + multiset(s0.freed) + s1.born)[x];
      assert (d + multiset(s2.freed) + s1.born)[x] == (b + c + multiset(s1.freed) + s2.born)[x];
    }
  }

  /** Two rewrites of separate nodes, one after the other. */
  lemma RewritesSeq(s0: Snap, s1: Snap, s2: Snap, a: multiset<Ptr>, b: multiset<Ptr>, c: multiset<Ptr>,
      d: multiset<Ptr>, k: int, target: Answer)
    requires Rewrites(s0, s1, a, b, k, target) && Rewrites(s1, s2, c, d, k, target)
    ensures Rewrites(s0, s2, a + c, b + d, k, target)
  {
    KeepsTrans(s0.mem, s1.mem, s2.mem, k, target);
    forall x
      ensures (b + d + multiset(s2.freed) + s0.born)[x] == (a + c + multiset(s0.freed) + s2.born)[x]
    {
      assert (b + multiset(s1.freed) + s0.born)[x] == (a + multiset(s0.freed) + s1.born)[x];
      assert (d + multiset(s2.freed) + s1.born)[x] == (c + multiset(s1.freed) + s2.born)[x];
    }
  }

  /** Nodes kept as they are may be counted on both sides. */
  lemma RewritesFrame(s: Snap, s': Snap, a: multiset<Ptr>, b: multiset<Ptr>, c: multiset<Ptr>, k: int, target: Answer)
    requires Rewrites(s, s', a, b, k, target)
    ensures Rewrites(s, s', a + c, b + c, k, target)
  {
    forall x
      ensures (b + c + multiset(s'.freed) + s.born)[x] == (a + c + multiset(s.freed) + s'.born)[x]
    {
      assert (b + multiset(s'.freed) + s.born)[x] == (a + multiset(s.freed) + s'.born)[x];
    }
  }

  /** Nodes left in place of distinct ones are distinct. */
  lemma RewritesDistinct(s: Snap, s': Snap, take: multiset<Ptr>, give: multiset<Ptr>, k: int, target: Answer, x: Ptr)
    requires Rewrites(s, s', take, give, k, target)
    requires x in give && take[x] <= 1 && (x in take ==> x in s.mem.heap) && s'.born[x] <= 1
    ensures give[x] == 1 && (x in take || x in s'.born)
  {
    assert (give + multiset(s'.freed) + s.born)[x] == (take + multiset(s.freed) + s'.born)[x];
    PrefixBag(s.freed, s'.freed);
  }

  lemma AddNew(s0: Snap, s: Snap, s': Snap, a: multiset<Ptr>, b: multiset<Ptr>, p: Ptr, k: int, target: Answer)
    requires Rewrites(s0, s, a, b, k, target) && Rewrites(s, s', multiset{}, multiset{p}, k, target)
    ensures Rewrites(s0, s', a, b + multiset{p}, k, target)
  {
    hide Rewrites;
    RewritesSeq(s0, s, s', a, b, multiset{}, multiset{p}, k, target);
    assert a + multiset{} == a;
  }

  lemma AddGone(s0: Snap, s: Snap, s': Snap, a: multiset<Ptr>, b: multiset<Ptr>, n: Ptr, k: int, target: Answer)
    requires Rewrites(s0, s, a, b, k, target) && Rewrites(s, s', multiset{n}, multiset{}, k, target)
    ensures Rewrites(s0, s', a + multiset{n}, b, k, target)
  {
    hide Rewrites;
    RewritesSeq(s0, s, s', a, b, multiset{n}, multiset{}, k, target);
    assert b + multiset{} == b;
  }

  /** Two new nodes for the rotated child, the other nodes kept. */
  lemma SingleRewrites(s0: Snap, s1: Snap, s2: Snap, s3: Snap, a: Ptr, res: Ptr, gone: Ptr, rest: multiset<Ptr>,
      k: int, target: Answer)
    requires Rewrites(s0, s1, multiset{}, multiset{a}, k, target)
    requires Rewrites(s1, s2, multiset{}, multiset{res}, k, target)
    requires Rewrites(s2, s3, multiset{gone}, multiset{}, k, target)
    ensures Rewrites(s0, s3, multiset{} + multiset{gone} + rest, multiset{a} + multiset{res} + rest, k, target)
  {
    hide Rewrites;
    AddNew(s0, s1, s2, multiset{}, multiset{a}, res, k, target);
    AddGone(s0, s2, s3, multiset{}, multiset{a} + multiset{res}, gone, k, target);
    RewritesFrame(s0, s3, multiset{} + multiset{gone}, multiset{a} + multiset{res}, rest, k, target);
  }

  /** Three new nodes for the rotated child and its inner child. */
  /** Three new nodes. */
  lemma ThreeRewrites(s0: Snap, s1: Snap, s2: Snap, s3: Snap, a: Ptr, b: Ptr, res: Ptr, k: int, target: Answer)
    requires Rewrites(s0, s1, multiset{}, multiset{a}, k, target)
    requires Rewrites(s1, s2, multiset{}, multiset{b}, k, target)
    requires Rewrites(s2, s3, multiset{}, multiset{res}, k, target)
    ensures Rewrites(s0, s3, multiset{}, multiset{a} + multiset{b} + multiset{res}, k, target)
  {
    hide Rewrites;
    var none: multiset<Ptr> := multiset{};
    AddNew(s0, s1, s2, none, multiset{a}, b, k, target);
    AddNew(s0, s2, s3, none, multiset{a} + multiset{b}, res, k, target);
  }

  lemma DoubleRewrites(s0: Snap, s3: Snap, s4: Snap, s5: Snap, a: Ptr, b: Ptr, res: Ptr, mid: Ptr, gone: Ptr,
      rest: multiset<Ptr>, k: int, target: Answer)
    requires Rewrites(s0, s3, multiset{}, multiset{a} + multiset{b} + multiset{res}, k, target)
    requires Rewrites(s3, s4, multiset{mid}, multiset{}, k, target)
    requires Rewrites(s4, s5, multiset{gone}, multiset{}, k, target)
    ensures Rewrites(s0, s5, multiset{} + multiset{mid} + multiset{gone} + rest,
      multiset{a} + multiset{b} + multiset{res} + rest, k, target)
  {
    hide Rewrites;
    var none: multiset<Ptr> := multiset{};
    var new3 := multiset{a} + multiset{b} + multiset{res};
    AddGone(s0, s3, s4, none, new3, mid, k, target);
    AddGone(s0, s4, s5, none + multiset{mid}, new3, gone, k, target);
    RewritesFrame(s0, s5, none + multiset{mid} + multiset{gone}, new3, rest, k, target);
  }

  lemma BagSingle(a: Ptr, res: Ptr, gone: Ptr, x: multiset<Ptr>, y: multiset<Ptr>, z: multiset<Ptr>)
    ensures multiset{} + multiset{gone} + (x + y + z) == x + (multiset{gone} + y + z)
    ensures multiset{} + multiset{gone} + (x + y + z) == multiset{gone} + x + y + z
    ensures multiset{a} + multiset{res} + (x + y + z) == multiset{res} + (multiset{a} + x + y) + z
    ensures multiset{a} + multiset{res} + (x + y + z) == multiset{res} + x + (multiset{a} + y + z)
  {
  }

  lemma BagDouble(a: Ptr, b: Ptr, res: Ptr, mid: Ptr, gone: Ptr, x: multiset<Ptr>, y: multiset<Ptr>, z: multiset<Ptr>,
      w: multiset<Ptr>)
    ensures multiset{} + multiset{mid} + multiset{gone} + (x + y + z + w) == x +
                (multiset{gone} + (multiset{mid} + y + z) + w)
    ensures multiset{} + multiset{mid} + multiset{gone} + (x + y + z + w) ==
                (multiset{gone} + x + (multiset{mid} + y + z)) + w
    ensures multiset{a} + multiset{b} + multiset{res} + (x + y + z + w) == multiset{res} + (multiset{a} + x + y) +
                (multiset{b} + z + w)
  {
  }

  /** A tree none of whose nodes was rewritten still stands. */
  lemma RepKept(s: Snap, s': Snap, take: multiset<Ptr>, give: multiset<Ptr>, k: int, target: Answer, p: Ptr, t: Tree)
    requires Rewrites(s, s', take, give, k, target)
    requires Rep(s.mem.heap, p, t) && Ptrs(t) !! take
    ensures Rep(s'.mem.heap, p, t)
  {
    RepIn(s.mem.heap, p, t);
    RepFrame(s.mem.heap, s'.mem.heap, p, t);
  }

  lemma RepGrown(s: Snap, s': Snap, a: Ptr, k: int, target: Answer, p: Ptr, t: Tree)
    requires Rewrites(s, s', multiset{}, multiset{a}, k, target)
    requires Rep(s.mem.heap, p, t)
    ensures Rep(s'.mem.heap, p, t)
  {
    RepKept(s, s', multiset{}, multiset{a}, k, target, p, t);
  }

  lemma SingleLDone(s0: Snap, s1: Snap, s2: Snap, s3: Snap, key: int, value: int, a: Ptr, res: Ptr, gone: Ptr,
      tl: Tree, tr: Tree, k: int, target: Answer)
    requires Rewrites(s0, s1, multiset{}, multiset{a}, k, target)
    requires Rewrites(s1, s2, multiset{}, multiset{res}, k, target)
    requires Rewrites(s2, s3, multiset{gone}, multiset{}, k, target)
    requires tr.Bin? && tr.ptr == gone && Bst(tl) && Bst(tr) && Splits(tl, key, tr)
    ensures var t := Bin(res, tr.key, tr.value, Bin(a, key, value, tl, tr.l), tr.r);
      Rewrites(s0, s3, Ptrs(tl) + Ptrs(tr), Ptrs(t), k, target) && SameMap(t, tl, key, value, tr)
  {
    hide Rewrites, SameMap, Bst, Splits;
    SingleRewrites(s0, s1, s2, s3, a, res, gone, Ptrs(tl) + Ptrs(tr.l) + Ptrs(tr.r), k, target);
    BagSingle(a, res, gone, Ptrs(tl), Ptrs(tr.l), Ptrs(tr.r));
    SingleLMap(tl, key, value, tr, a, res);
  }

  lemma SingleRDone(s0: Snap, s1: Snap, s2: Snap, s3: Snap, key: int, value: int, a: Ptr, res: Ptr, gone: Ptr,
      tl: Tree, tr: Tree, k: int, target: Answer)
    requires Rewrites(s0, s1, multiset{}, multiset{a}, k, target)
    requires Rewrites(s1, s2, multiset{}, multiset{res}, k, target)
    requires Rewrites(s2, s3, multiset{gone}, multiset{}, k, target)
    requires tl.Bin? && tl.ptr == gone && Bst(tl) && Bst(tr) && Splits(tl, key, tr)
    ensures var t := Bin(res, tl.key, tl.value, tl.l, Bin(a, key, value, tl.r, tr));
      Rewrites(s0, s3, Ptrs(tl) + Ptrs(tr), Ptrs(t), k, target) && SameMap(t, tl, key, value, tr)
  {
    hide Rewrites, SameMap, Bst, Splits;
    SingleRewrites(s0, s1, s2, s3, a, res, gone, Ptrs(tl.l) + Ptrs(tl.r) + Ptrs(tr), k, target);
    BagSingle(a, res, gone, Ptrs(tl.l), Ptrs(tl.r), Ptrs(tr));
    SingleRMap(tl, key, value, tr, a, res);
  }

  lemma DoubleLDone(s0: Snap, s3: Snap, s4: Snap, s5: Snap, key: int, value: int, a: Ptr, b: Ptr,
      res: Ptr, mid: Ptr, gone: Ptr, tl: Tree, tr: Tree, k: int, target: Answer)
    requires Rewrites(s0, s3, multiset{}, multiset{a} + multiset{b} + multiset{res}, k, target)
    requires Rewrites(s3, s4, multiset{mid}, multiset{}, k, target)
    requires Rewrites(s4, s5, multiset{gone}, multiset{}, k, target)
    requires tr.Bin? && tr.l.Bin? && tr.ptr == gone && tr.l.ptr == mid && Bst(tl) && Bst(tr) && Splits(tl, key, tr)
    ensures var t := Bin(res, tr.l.key, tr.l.value, Bin(a, key, value, tl, tr.l.l),
                Bin(b, tr.key, tr.value, tr.l.r, tr.r));
      Rewrites(s0, s5, Ptrs(tl) + Ptrs(tr), Ptrs(t), k, target) && SameMap(t, tl, key, value, tr)
  {
    hide Rewrites, SameMap, Bst, Splits;
    DoubleRewrites(s0, s3, s4, s5, a, b, res, mid, gone, Ptrs(tl) + Ptrs(tr.l.l) + Ptrs(tr.l.r) + Ptrs(tr.r),
        k, target);
    BagDouble(a, b, res, mid, gone, Ptrs(tl), Ptrs(tr.l.l), Ptrs(tr.l.r), Ptrs(tr.r));
    DoubleLMap(tl, key, value, tr, a, b, res);
  }

  lemma DoubleRDone(s0: Snap, s3: Snap, s4: Snap, s5: Snap, key: int, value: int, a: Ptr, b: Ptr,
      res: Ptr, mid: Ptr, gone: Ptr, tl: Tree, tr: Tree, k: int, target: Answer)
    requires Rewrites(s0, s3, multiset{}, multiset{a} + multiset{b} + multiset{res}, k, target)
    requires Rewrites(s3, s4, multiset{mid}, multiset{}, k, target)
    requires Rewrites(s4, s5, multiset{gone}, multiset{}, k, target)
    requires tl.Bin? && tl.r.Bin? && tl.ptr == gone && tl.r.ptr == mid && Bst(tl) && Bst(tr) && Splits(tl, key, tr)
    ensures var t := Bin(res, tl.r.key, tl.r.value, Bin(a, tl.key, tl.value, tl.l, tl.r.l),
                Bin(b, key, value, tl.r.r, tr));
      Rewrites(s0, s5, Ptrs(tl) + Ptrs(tr), Ptrs(t), k, target) && SameMap(t, tl, key, value, tr)
  {
    hide Rewrites, SameMap, Bst, Splits;
    DoubleRewrites(s0, s3, s4, s5, a, b, res, mid, gone, Ptrs(tl.l) + Ptrs(tl.r.l) + Ptrs(tl.r.r) + Ptrs(tr),
        k, target);
    BagDouble(a, b, res, mid, gone, Ptrs(tl.l), Ptrs(tl.r.l), Ptrs(tl.r.r), Ptrs(tr));
    DoubleRMap(tl, key, value, tr, a, b, res);
  }

  /** `p` may be linked below an owned node: nothing, a node live when the
      operation began, or one allocated since. */
  ghost predicate InReach(h0: Heap, live: set<Ptr>, m: Mem, p: Ptr) {
    p == NULL || p in live || (p in m.heap && p !in h0)
  }

  /** Nodes that were discarded before the operation began are not written and
      not linked to by anything the operation writes. */
  ghost predicate Contained(h0: Heap, live: set<Ptr>, m: Mem) {
    && h0.Keys <= m.heap.Keys && NULL !in m.heap
    && InReach(h0, live, m, m.root)
    && forall q :: q in m.heap ==>
         if q in h0 && q !in live then m.heap[q] == h0[q]
         else InReach(h0, live, m, m.heap[q].left) && InReach(h0, live, m, m.heap[q].right)
  }

  ghost predicate StepAt(hist: seq<Mem>, i: nat, k: int, target: Answer)
    requires i + 1 < |hist|
  {
    Keeps(hist[i], hist[i + 1], k, target) && SameKv(hist[i].heap, hist[i + 1].heap)
  }

  /** The key and value of a node never change while it is allocated. */
  ghost predicate SameKv(h: Heap, h': Heap) {
    forall q :: q in h ==> q in h' && h'[q].key == h[q].key && h'[q].value == h[q].value
  }

  /** Every single store of the recorded run keeps answers. */
  ghost predicate Chain(hist: seq<Mem>, k: int, target: Answer) {
    && |hist| > 0
    && forall i: nat :: i + 1 < |hist| ==> StepAt(hist, i, k, target)
  }

  lemma ContainedStep(h0: Heap, live: set<Ptr>, m: Mem, c: Ptr, n: Node)
    requires Contained(h0, live, m) && c != NULL
    requires c in live || c !in h0
    requires InReach(h0, live, m, n.left) && InReach(h0, live, m, n.right)
    ensures Contained(h0, live, m.(heap := m.heap[c := n]))
  {
  }

  lemma ChainLast(hist: seq<Mem>, k: int, target: Answer)
    requires Chain(hist, k, target)
    ensures |hist| > 0 && hist[|hist| - 1] in hist
  {
  }

  lemma GrowSameKv(h: Heap, c: Ptr, n: Node)
    requires c in h ==> n.key == h[c].key && n.value == h[c].value
    ensures SameKv(h, h[c := n])
  {
  }

  lemma ChainExtend(hist: seq<Mem>, m: Mem, k: int, target: Answer)
    requires Chain(hist, k, target) && Keeps(hist[|hist| - 1], m, k, target) && SameKv(hist[|hist| - 1].heap, m.heap)
    ensures Chain(hist + [m], k, target)
  {
    var hist' := hist + [m];
    forall i: nat | i + 1 < |hist'| ensures StepAt(hist', i, k, target) {
      if i + 1 < |hist| {
        assert StepAt(hist, i, k, target);
      }
    }
  }

  lemma RepSize(h: Heap, p: Ptr, t: Tree)
    requires Rep(h, p, t)
    ensures p == NULL <==> t.Nil?
    ensures p != NULL ==> p in h && h[p].size == Count(t) && p in Ptrs(t)
    ensures p == NULL ==> Count(t) == 0
  {
  }

  lemma RepKids(h: Heap, p: Ptr, t: Tree)
    requires Rep(h, p, t) && t.Bin?
    ensures p == t.ptr && p != NULL && p in h && h[p].key == t.key && h[p].value == t.value
    ensures Rep(h, h[p].left, t.l) && Rep(h, h[p].right, t.r)
  {
  }

  lemma NewNodeRep(h: Heap, p: Ptr, n: Node, tl: Tree, tr: Tree)
    requires p !in h && p != NULL && Rep(h, n.left, tl) && Rep(h, n.right, tr) && n.size == 1 + Count(tl) + Count(tr)
    ensures Rep(h[p := n], p, Bin(p, n.key, n.value, tl, tr))
  {
    RepIn(h, n.left, tl);
    RepIn(h, n.right, tr);
    LinkedRep(h, p, n, tl, tr);
  }

  lemma LinkedRep(h: Heap, c: Ptr, n: Node, tl: Tree, tr: Tree)
    requires c != NULL && Rep(h, n.left, tl) && Rep(h, n.right, tr) && c !in Ptrs(tl) && c !in Ptrs(tr)
    requires n.size == 1 + Count(tl) + Count(tr)
    ensures Rep(h[c := n], c, Bin(c, n.key, n.value, tl, tr))
  {
    hide Ptrs, Rep;
    RepFrame(h, h[c := n], n.left, tl);
    RepFrame(h, h[c := n], n.right, tr);
    RepBin(h[c := n], c, tl, tr);
  }

  lemma RepBin(h: Heap, c: Ptr, tl: Tree, tr: Tree)
    requires c != NULL && c in h && Rep(h, h[c].left, tl) && Rep(h, h[c].right, tr)
    requires h[c].size == 1 + Count(tl) + Count(tr)
    ensures Rep(h, c, Bin(c, h[c].key, h[c].value, tl, tr))
  {
  }

  lemma NewNodeRewrites(s: Snap, p: Ptr, n: Node, k: int, target: Answer)
    requires p !in s.mem.heap
    ensures Rewrites(s, Snap(s.mem.(heap := s.mem.heap[p := n]), s.freed, s.born + multiset{p}), multiset{},
                multiset{p}, k, target)
  {
    GrowKeeps(s.mem, p, n, k, target);
  }

  /** A node over two subtrees answers from the joined tree. */
  lemma NodeAnswers(h: Heap, c: Ptr, tl: Tree, tr: Tree)
    requires c != NULL && c in h && Rep(h, h[c].left, tl) && Rep(h, h[c].right, tr)
    ensures forall j :: Answers(h, c, j, Look(Bin(c, h[c].key, h[c].value, tl, tr), j))
  {
    forall j ensures Answers(h, c, j, Look(Bin(c, h[c].key, h[c].value, tl, tr), j)) {
      AnswersHere(h, c, j);
      if j != h[c].key {
        AnswersStep(h, c, j, Look(Bin(c, h[c].key, h[c].value, tl, tr), j));
        RepAnswers(h, h[c].left, tl, j);
        RepAnswers(h, h[c].right, tr, j);
      }
    }
  }

  /** The writer came to `p` over `via`, which shares no node with `u`. */
  ghost predicate Passed(m: Mem, p: Ptr, via: seq<Ptr>, u: Tree, k: int) {
    Path(m.heap, m.root, k, via, p) && p !in via && forall x :: x in via ==> x !in Ptrs(u)
  }

  /** What a pointer store at `c` needs: a search for `k` passes `c`, and `c`
      already answers like `t`, except that `t` may be final for `k`. */
  ghost predicate Due(m: Mem, c: Ptr, t: Tree, via: seq<Ptr>, k: int, target: Answer) {
    && Path(m.heap, m.root, k, via, c) && c !in via
    && forall j :: Answers(m.heap, c, j, Look(t, j)) || (j == k && Look(t, j) == target)
  }

  lemma LinkKeeps(m: Mem, c: Ptr, n: Node, tl: Tree, tr: Tree, via: seq<Ptr>, k: int, target: Answer)
    requires c != NULL && c in m.heap && m.heap[c].key == n.key && m.heap[c].value == n.value
    requires Rep(m.heap, n.left, tl) && Rep(m.heap, n.right, tr) && c !in Ptrs(tl) && c !in Ptrs(tr)
    requires Due(m, c, Bin(c, n.key, n.value, tl, tr), via, k, target)
    ensures Keeps(m, m.(heap := m.heap[c := n]), k, target)
    ensures Rep(m.heap[c := n], n.left, tl) && Rep(m.heap[c := n], n.right, tr)
  {
    hide Rep, Ptrs, Keeps, Look;
    var t := Bin(c, n.key, n.value, tl, tr);
    RepFrame(m.heap, m.heap[c := n], n.left, tl);
    RepFrame(m.heap, m.heap[c := n], n.right, tr);
    NodeAnswers(m.heap[c := n], c, tl, tr);
    StoreKeeps(m, c, n, k, target, via, j => Look(t, j));
  }

  lemma CopiedDone(s0: Snap, s1: Snap, s2: Snap, c: Ptr, res: Ptr, pl: multiset<Ptr>, pr: multiset<Ptr>, k: int,
      target: Answer)
    requires Rewrites(s0, s1, multiset{}, multiset{res}, k, target)
    requires Rewrites(s1, s2, multiset{c}, multiset{}, k, target)
    ensures Rewrites(s0, s2, multiset{c} + pl + pr, multiset{res} + pl + pr, k, target)
  {
    hide Rewrites;
    AddGone(s0, s1, s2, multiset{}, multiset{res}, c, k, target);
    RewritesFrame(s0, s2, multiset{} + multiset{c}, multiset{res}, pl + pr, k, target);
    assert multiset{} + multiset{c} + (pl + pr) == multiset{c} + pl + pr;
    assert multiset{res} + (pl + pr) == multiset{res} + pl + pr;
  }

  lemma BinSameMap(p: Ptr, l: Tree, k: int, v: int, r: Tree)
    requires Bst(l) && Bst(r) && Splits(l, k, r)
    ensures SameMap(Bin(p, k, v, l, r), l, k, v, r)
    ensures Ptrs(Bin(p, k, v, l, r)) == multiset{p} + Ptrs(l) + Ptrs(r)
  {
  }

  lemma RewritesRefl(s: Snap, b: multiset<Ptr>, k: int, target: Answer)
    ensures Rewrites(s, s, b, b, k, target)
  {
  }

  lemma RewritesKeeps(s: Snap, s': Snap, take: multiset<Ptr>, give: multiset<Ptr>, k: int, target: Answer)
    requires Rewrites(s, s', take, give, k, target)
    ensures Keeps(s.mem, s'.mem, k, target) && s'.mem.root == s.mem.root
    ensures forall x :: x in s.mem.heap && x !in take ==> x in s'.mem.heap && s'.mem.heap[x] == s.mem.heap[x]
  {
  }

  lemma FrameAt(s: Snap, s': Snap, take: multiset<Ptr>, give: multiset<Ptr>, k: int, target: Answer, x: Ptr)
    requires Rewrites(s, s', take, give, k, target) && x in s.mem.heap && x !in take
    ensures x in s'.mem.heap && s'.mem.heap[x] == s.mem.heap[x]
  {
  }

  lemma BagMove(p: Ptr, l: multiset<Ptr>, m: Ptr, r: multiset<Ptr>)
    ensures multiset{p} + (l + multiset{m}) + r == multiset{p} + l + r + multiset{m}
  {
  }

  lemma BagLift(t: Tree, m: Ptr, r: multiset<Ptr>)
    requires t.Bin?
    ensures multiset{t.ptr} + Ptrs(t.r) + Ptrs(t.l) == Ptrs(t)
    ensures multiset{} + (r + multiset{m}) + Ptrs(t.l) == multiset{m} + Ptrs(t.l) + r
  {
  }

  lemma UnlinkRewrites(s: Snap, s': Snap, c: Ptr, rest: multiset<Ptr>, k: int, target: Answer)
    requires Rewrites(s, s', multiset{c}, multiset{}, k, target)
    ensures Rewrites(s, s', multiset{c} + rest, rest, k, target)
  {
    hide Rewrites;
    RewritesFrame(s, s', multiset{c}, multiset{}, rest, k, target);
    assert multiset{} + rest == rest;
  }

  lemma NilUpdated(t: Tree, k: int)
    requires t.Nil?
    ensures Updated(t, t, k, None) && Look(t, k) == None
  {
  }

  lemma LookHere(t: Tree)
    requires t.Bin?
    ensures Look(t, t.key) == Some(t.value)
  {
  }

  ghost predicate KidsIn(h: Heap, q: Ptr, b: set<Ptr>) {
    q in h && (h[q].left == NULL || h[q].left in b) && (h[q].right == NULL || h[q].right in b)
  }

  lemma {:induction false} KidsInside(h: Heap, p: Ptr, t: Tree, b: set<Ptr>, q: Ptr)
    requires Rep(h, p, t) && (forall x :: x in Ptrs(t) ==> x in b) && q in Ptrs(t)
    ensures KidsIn(h, q, b)
    decreases t
  {
    hide Ptrs, Rep;
    RepSize(h, p, t);
    if t.Nil? {
      PtrsNil(t);
      assert false;
    } else {
      RepKids(h, p, t);
      forall x ensures x in Ptrs(t) <==> x == t.ptr || x in Ptrs(t.l) || x in Ptrs(t.r) {
        PtrsMember(t, x);
      }
      RepSize(h, h[p].left, t.l);
      RepSize(h, h[p].right, t.r);
      if q in Ptrs(t.l) {
        KidsInside(h, h[p].left, t.l, b, q);
      } else if q in Ptrs(t.r) {
        KidsInside(h, h[p].right, t.r, b, q);
      }
    }
  }

  lemma PtrsNil(t: Tree)
    requires t.Nil?
    ensures Ptrs(t) == multiset{}
  {
  }

  /** Between operations nothing live links to a discarded node. */
  lemma StartContained(h: Heap, root: Ptr, t: Tree, live: set<Ptr>)
    requires Rep(h, root, t) && live == (set x | x in Ptrs(t)) && NULL !in h
    ensures Contained(h, live, Mem(h, root)) && live <= h.Keys
  {
    hide Rep, Ptrs;
    RepIn(h, root, t);
    forall q | q in h && q in live
      ensures InReach(h, live, Mem(h, root), h[q].left) && InReach(h, live, Mem(h, root), h[q].right)
    {
      KidsInside(h, root, t, live, q);
    }
  }

  lemma RootKeeps(m: Mem, nroot: Ptr, k: int, target: Answer)
    requires forall j, r ::
               Answers(m.heap, m.root, j, r) ==>
                 Answers(m.heap, nroot, j, r) || (j == k && Answers(m.heap, nroot, k, target))
    ensures Keeps(m, m.(root := nroot), k, target) && SameKv(m.heap, m.heap)
  {
  }

  lemma ContainedRoot(h0: Heap, live: set<Ptr>, m: Mem, nroot: Ptr)
    requires Contained(h0, live, m) && InReach(h0, live, m, nroot)
    ensures Contained(h0, live, m.(root := nroot))
  {
  }

  lemma SettleAnswers(m0: Mem, m: Mem, nroot: Ptr, t: Tree, t': Tree, k: int, target: Answer)
    requires Keeps(m0, m, k, target) && m.root == m0.root
    requires Rep(m0.heap, m0.root, t) && Rep(m.heap, nroot, t') && Updated(t, t', k, target)
    ensures forall j, r ::
              Answers(m.heap, m.root, j, r) ==>
                Answers(m.heap, nroot, j, r) || (j == k && Answers(m.heap, nroot, k, target))
  {
    hide Rep, Look, Answers;
    forall j, r | Answers(m.heap, m.root, j, r)
      ensures Answers(m.heap, nroot, j, r) || (j == k && Answers(m.heap, nroot, k, target))
    {
      RepAnswers(m0.heap, m0.root, t, j);
      RepAnswers(m.heap, nroot, t', j);
      if j != k {
        assert Answers(m.heap, m.root, j, Look(t, j));
        AnswersUnique(m.heap, m.root, j, r, Look(t, j));
      }
    }
  }

  /** Every node that was live before or allocated during an operation and is
      not live after it is discarded, exactly once; nothing else is; and the
      balance of allocations and discards is the change in size of the map. */
  ghost predicate Accounted(before: Tree, born: multiset<Ptr>, discards: seq<Ptr>, after: Tree) {
    && (forall x :: multiset(discards)[x] == if (x in Ptrs(before) || x in born) && x !in Ptrs(after) then 1 else 0)
    && (forall x :: x in Ptrs(after) ==> x in Ptrs(before) || x in born)
    && |born| - |discards| == |Contents(after)| - |Contents(before)|
  }

  lemma AccountedFor(before: Tree, freed0: seq<Ptr>, born: multiset<Ptr>, freed: seq<Ptr>, after: Tree)
    requires freed0 <= freed && Ptrs(after) + multiset(freed) == Ptrs(before) + multiset(freed0) + born
    requires (forall x :: x in Ptrs(before) ==> Ptrs(before)[x] == 1)
    requires (forall x :: x in Ptrs(after) ==> Ptrs(after)[x] == 1)
    requires forall x :: x in born ==> born[x] == 1 && x !in Ptrs(before)
    requires Bst(before) && Bst(after)
    ensures Accounted(before, born, freed[|freed0|..], after)
  {
    hide Ptrs, Bst, Contents;
    var d := freed[|freed0|..];
    assert freed == freed0 + d;
    assert multiset(freed) == multiset(freed0) + multiset(d);
    forall x
      ensures Ptrs(after)[x] + multiset(d)[x] == Ptrs(before)[x] + born[x]
    {
      assert (Ptrs(after) + multiset(freed))[x] == (Ptrs(before) + multiset(freed0) + born)[x];
    }
    BagSizes(Ptrs(after), multiset(d), Ptrs(before), born);
    SizeOfContents(before);
    SizeOfContents(after);
    assert |multiset(d)| == |d|;
  }

  lemma BagSizes(a: multiset<Ptr>, b: multiset<Ptr>, c: multiset<Ptr>, d: multiset<Ptr>)
    requires forall x :: a[x] + b[x] == c[x] + d[x]
    ensures |a| + |b| == |c| + |d|
  {
    assert a + b == c + d;
    assert |a + b| == |a| + |b| && |c + d| == |c| + |d|;
  }

  lemma SizeOfContents(t: Tree)
    requires Bst(t)
    ensures |Contents(t)| == |Ptrs(t)|
  {
    KeysCount(t);
    PtrsCount(t);
    assert Contents(t).Keys == Keys(t);
  }

  lemma ContentsUpdated(t: Tree, t': Tree, k: int, target: Answer)
    requires Bst(t) && Updated(t, t', k, target)
    ensures Contents(t') == if target.Some? then Contents(t)[k := target.value] else Contents(t) - {k}
  {
  }

  lemma BagLeft(p: Ptr, t: Tree, l: multiset<Ptr>)
    requires t.Bin? && t.ptr == p
    ensures Ptrs(t.l) + (multiset{p} + Ptrs(t.r)) == Ptrs(t)
    ensures l + (multiset{p} + Ptrs(t.r)) == multiset{p} + l + Ptrs(t.r)
  {
  }

  lemma BagRight(p: Ptr, t: Tree, r: multiset<Ptr>)
    requires t.Bin? && t.ptr == p
    ensures Ptrs(t.r) + (multiset{p} + Ptrs(t.l)) == Ptrs(t)
    ensures r + (multiset{p} + Ptrs(t.l)) == multiset{p} + Ptrs(t.l) + r
  {
  }

  lemma BstKids(t: Tree)
    requires Bst(t) && t.Bin?
    ensures Bst(t.l) && Bst(t.r) && Splits(t.l, t.key, t.r)
  {
  }

  /** The three parts of a tree of distinct nodes share none. */
  lemma Apart(t: Tree)
    requires t.Bin? && forall x :: x in Ptrs(t) ==> Ptrs(t)[x] == 1
    ensures t.ptr !in Ptrs(t.l) && t.ptr !in Ptrs(t.r) && Ptrs(t.l) !! Ptrs(t.r)
  {
    PtrsBin(t);
    assert Ptrs(t)[t.ptr] == 1 + Ptrs(t.l)[t.ptr] + Ptrs(t.r)[t.ptr];
    forall x | x in Ptrs(t.l) ensures x !in Ptrs(t.r) {
      assert Ptrs(t)[x] >= Ptrs(t.l)[x] + Ptrs(t.r)[x];
      assert x in Ptrs(t);
    }
  }

  /** Removing the least key `m`, found in the left subtree. */
  lemma MinLeft(t: Tree, l: Tree, m: int, v: int)
    requires t.Bin? && Bst(t) && Updated(t.l, l, m, None) && Look(t.l, m) == Some(v)
    requires forall x :: x in Keys(l) ==> m < x
    ensures m < t.key && Look(t, m) == Some(v)
    ensures forall t' :: SameMap(t', l, t.key, t.value, t.r) ==> forall x :: x in Keys(t') ==> m < x
  {
    LookKeys(t.l, m);
  }

  lemma MinHere(t: Tree)
    requires t.Bin? && t.l.Nil? && Bst(t)
    ensures Updated(t, t.r, t.key, None) && Look(t, t.key) == Some(t.value)
    ensures forall x :: x in Keys(t.r) ==> t.key < x
    ensures Ptrs(t) == Ptrs(t.r) + multiset{t.ptr}
  {
    forall j ensures Look(t.r, j) == if j == t.key then None else Look(t, j) {
      LookKeys(t.r, j);
    }
  }

  /** The node found has at most one child. */
  lemma DeleteHere(t: Tree, t': Tree)
    requires t.Bin? && Bst(t) && ((t.l.Nil? && t' == t.r) || (t.r.Nil? && t' == t.l))
    ensures Updated(t, t', t.key, None) && Ptrs(t) == multiset{t.ptr} + Ptrs(t')
  {
    forall j ensures Look(t', j) == if j == t.key then None else Look(t, j) {
      LookKeys(t', j);
      LookKeys(t.l, j);
      LookKeys(t.r, j);
    }
  }

  /** The least key of the right subtree takes the place of the key deleted. */
  lemma DeleteLifts(t: Tree, r: Tree, m: int, v: int)
    requires t.Bin? && Bst(t) && Updated(t.r, r, m, None) && Look(t.r, m) == Some(v)
    requires forall x :: x in Keys(r) ==> m < x
    ensures Splits(t.l, m, r) && Bst(r)
    ensures forall t' :: SameMap(t', t.l, m, v, r) ==> Updated(t, t', t.key, None)
  {
    LookKeys(t.r, m);
    forall t' | SameMap(t', t.l, m, v, r) ensures Updated(t, t', t.key, None) {
      assert t.key !in Keys(t.l) && t.key !in Keys(r);
      forall j ensures Look(t', j) == if j == t.key then None else Look(t, j) {
        LookKeys(t', j);
        LookKeys(t.l, j);
        LookKeys(t.r, j);
        assert Look(t', j) == Look(Bin(NULL, m, v, t.l, r), j);
      }
    }
  }

  lemma InPlaceRewrites(s: Snap, s': Snap, c: Ptr, rest: multiset<Ptr>, k: int, target: Answer)
    requires Keeps(s.mem, s'.mem, k, target) && s'.mem.root == s.mem.root && s'.freed == s.freed && s'.born == s.born
    requires forall x :: x in s.mem.heap && x != c ==> x in s'.mem.heap && s'.mem.heap[x] == s.mem.heap[x]
    ensures Rewrites(s, s', multiset{c} + rest, multiset{c} + rest, k, target)
  {
  }

  lemma RotatedDone(s0: Snap, s1: Snap, s2: Snap, c: Ptr, pl: multiset<Ptr>, pr: multiset<Ptr>, give: multiset<Ptr>,
      k: int, target: Answer)
    requires Rewrites(s0, s1, pl + pr, give, k, target) && Rewrites(s1, s2, multiset{c}, multiset{}, k, target)
    ensures Rewrites(s0, s2, multiset{c} + pl + pr, give, k, target)
  {
    hide Rewrites;
    AddGone(s0, s1, s2, pl + pr, give, c, k, target);
    assert pl + pr + multiset{c} == multiset{c} + pl + pr;
  }

  /** `t'` is `t` with the answer for `k` made `target`, nothing else changed. */
  ghost predicate Updated(t: Tree, t': Tree, k: int, target: Answer) {
    && Bst(t')
    && Keys(t') == (if target.Some? then Keys(t) + {k} else Keys(t) - {k})
    && forall j :: Look(t', j) == if j == k then target else Look(t, j)
  }

  lemma UpdatedBst(t: Tree, t': Tree, k: int, target: Answer)
    requires Updated(t, t', k, target)
    ensures Bst(t')
  {
  }

  lemma LeafUpdated(t: Tree, q: Ptr, k: int, v: int)
    requires t.Nil?
    ensures Look(t, k) == None && Ptrs(t) == multiset{} && Ptrs(Bin(q, k, v, Nil, Nil)) == multiset{q}
    ensures Rep(map[], NULL, Nil)
    ensures Updated(t, Bin(q, k, v, Nil, Nil), k, Some(v))
  {
  }

  /** An existing key keeps its value. */
  lemma SameUpdated(t: Tree, k: int)
    requires Bst(t) && t.Bin? && t.key == k
    ensures Updated(t, t, k, Look(t, k)) && Look(t, k).Some?
  {
  }

  lemma UpdatedLeft(t: Tree, l: Tree, k: int, target: Answer)
    requires t.Bin? && Bst(t) && k < t.key && Updated(t.l, l, k, target)
    ensures Splits(l, t.key, t.r)
    ensures forall j :: Look(Bin(t.ptr, t.key, t.value, l, t.r), j) == if j == k then target else Look(t, j)
    ensures forall t' :: SameMap(t', l, t.key, t.value, t.r) ==> Updated(t, t', k, target)
  {
    assert k !in Keys(t.r);
    hide Bst, Splits;
    forall j ensures Look(Bin(t.ptr, t.key, t.value, l, t.r), j) == if j == k then target else Look(t, j) {
      assert Look(l, j) == if j == k then target else Look(t.l, j);
    }
    forall t' | SameMap(t', l, t.key, t.value, t.r) ensures Updated(t, t', k, target) {
      forall j ensures Look(t', j) == if j == k then target else Look(t, j) {
        SameLook(t', l, t.key, t.value, t.r, t.ptr, j);
      }
    }
  }

  lemma UpdatedRight(t: Tree, r: Tree, k: int, target: Answer)
    requires t.Bin? && Bst(t) && t.key < k && Updated(t.r, r, k, target)
    ensures Splits(t.l, t.key, r)
    ensures forall j :: Look(Bin(t.ptr, t.key, t.value, t.l, r), j) == if j == k then target else Look(t, j)
    ensures forall t' :: SameMap(t', t.l, t.key, t.value, r) ==> Updated(t, t', k, target)
  {
    assert k !in Keys(t.l);
    hide Bst, Splits;
    forall j ensures Look(Bin(t.ptr, t.key, t.value, t.l, r), j) == if j == k then target else Look(t, j) {
      assert Look(r, j) == if j == k then target else Look(t.r, j);
    }
    forall t' | SameMap(t', t.l, t.key, t.value, r) ensures Updated(t, t', k, target) {
      forall j ensures Look(t', j) == if j == k then target else Look(t, j) {
        SameLook(t', t.l, t.key, t.value, r, t.ptr, j);
      }
    }
  }

  lemma SameLook(t': Tree, l: Tree, k: int, v: int, r: Tree, p: Ptr, j: int)
    requires SameMap(t', l, k, v, r)
    ensures Look(t', j) == Look(Bin(p, k, v, l, r), j)
  {
  }

  /** After the subtree below `p` was updated, the store that links the result
      below `p` is due. */
  lemma DueAfter(m0: Mem, m1: Mem, p: Ptr, t: Tree, u: Tree, via: seq<Ptr>, k: int, target: Answer)
    requires Keeps(m0, m1, k, target) && m1.root == m0.root
    requires Rep(m0.heap, p, t) && Path(m0.heap, m0.root, k, via, p) && p !in via
    requires forall x :: x in via && x in m0.heap ==> x in m1.heap && m1.heap[x] == m0.heap[x]
    requires forall j :: Look(u, j) == if j == k then target else Look(t, j)
    ensures Due(m1, p, u, via, k, target)
  {
    hide Rep, Look;
    PathKept(m0.heap, m1.heap, m0.root, k, via, p);
    forall j ensures Answers(m1.heap, p, j, Look(u, j)) || (j == k && Look(u, j) == target) {
      RepAnswers(m0.heap, p, t, j);
      if j != k {
        assert Answers(m1.heap, p, j, Look(t, j));
      }
    }
  }

  /** Distinct nodes, each live when the operation began or allocated since. */
  ghost predicate HeldIn(live: set<Ptr>, born: multiset<Ptr>, b: multiset<Ptr>) {
    forall x :: x in b ==> b[x] == 1 && (x in live || x in born)
  }

  /** Nodes were added; none that was there has changed. */
  ghost predicate Grew(h: Heap, h': Heap) {
    forall x :: x in h ==> x in h' && h'[x] == h[x]
  }

  lemma GrewTrans(a: Heap, b: Heap, c: Heap)
    requires Grew(a, b) && Grew(b, c)
    ensures Grew(a, c)
  {
  }

  lemma GrewRefl(a: Heap)
    ensures Grew(a, a)
  {
  }

  lemma GrewNew(a: Heap, p: Ptr, n: Node)
    requires p !in a
    ensures Grew(a, a[p := n])
  {
  }

  class Writer {
    var heap: Heap
    var root: Ptr
    var freeBuf: seq<Ptr>

    // The running operation: its key, its final answer for that key, the nodes
    // live when it began, the nodes allocated since, the memory then and all memories since.
    ghost var opKey: int
    ghost var target: Answer
    ghost var live: set<Ptr>
    ghost var born: multiset<Ptr>
    ghost var start: Mem
    ghost var hist: seq<Mem>

    // The live tree between operations.
    ghost var shape: Tree

    constructor ()
      ensures Ready() && Model() == map[] && freeBuf == [] && heap == map[]
    {
      heap, root, freeBuf, shape := map[], NULL, [], Nil;
    }

    ghost function Memory(): Mem
      reads `heap, `root
    {
      Mem(heap, root)
    }

    ghost function Now(): Snap
      reads `heap, `root, `freeBuf, `born
    {
      Snap(Memory(), freeBuf, born)
    }

    /** The record of the running operation is complete and well-behaved. */
    ghost predicate Traced()
      reads `heap, `root, `opKey, `target, `live, `born, `start, `hist
    {
      && Chain(hist, opKey, target)
      && hist[0] == start && hist[|hist| - 1] == Memory()
      && live <= start.heap.Keys && NULL !in heap
      && (forall m :: m in hist ==> Contained(start.heap, live, m))
      && (forall x :: x in heap <==> x in start.heap || x in born)
      && (forall x :: x in born ==> born[x] == 1 && x !in start.heap)
    }

    ghost predicate Owned(x: Ptr)
      reads `live, `born
    {
      x in live || x in born
    }

    ghost predicate OwnedOrNull(p: Ptr)
      reads `live, `born
    {
      p == NULL || Owned(p)
    }

    /** TreeBBNewNode: some address not handed out at the moment. */
    method TreeBBNewNode() returns (p: Ptr)
      ensures p != NULL && p !in heap
    {
      ghost var w := FreshAddress(heap.Keys);
      assert w != NULL && w !in heap;
      p :| p != NULL && p !in heap;
    }

    /** TreeBBFreeNode: discarded nodes wait in the buffer until the operation
        is over. */
    method TreeBBFreeNode(n: Ptr)
      requires Traced()
      modifies `freeBuf
      ensures Traced()
      ensures freeBuf == old(freeBuf) + [n]
      ensures Rewrites(old(Now()), Now(), multiset{n}, multiset{}, opKey, target)
    {
      freeBuf := freeBuf + [n];
      KeepsRefl(Memory(), opKey, target);
    }

    /** One store to node memory. */
    method Store(c: Ptr, n: Node)
      requires Traced() && c != NULL
      requires Owned(c) || c !in heap
      requires OwnedOrNull(n.left) && OwnedOrNull(n.right)
      requires c in heap ==> n.key == heap[c].key && n.value == heap[c].value
      requires Keeps(Memory(), Mem(heap[c := n], root), opKey, target)
      modifies `heap, `hist, `born
      ensures heap == old(heap)[c := n]
      ensures born == if c in old(heap) then old(born) else old(born) + multiset{c}
      ensures hist == old(hist) + [Memory()]
      ensures Traced()
    {
      hide Keeps, Contained, StepAt, SameKv, Chain;
      ChainLast(hist, opKey, target);
      ghost var m1 := Mem(heap[c := n], root);
      GrowSameKv(heap, c, n);
      ContainedStep(start.heap, live, Memory(), c, n);
      ChainExtend(hist, m1, opKey, target);
      if c !in heap {
        born := born + multiset{c};
      }
      heap := heap[c := n];
      hist := hist + [m1];
    }

    lemma LastShown()
      requires Traced()
      ensures |hist| > 0 && hist[|hist| - 1] == Memory()
    {
    }

    method MkNode(left: Ptr, right: Ptr, key: int, value: int, ghost tl: Tree, ghost tr: Tree)
        returns (p: Ptr, ghost t: Tree)
      requires Traced() && Rep(heap, left, tl) && Rep(heap, right, tr)
      requires OwnedOrNull(left) && OwnedOrNull(right)
      modifies `heap, `hist, `born
      ensures Traced() && p !in old(heap) && Owned(p)
      ensures t == Bin(p, key, value, tl, tr) && Rep(heap, p, t)
      ensures heap == old(heap)[p := heap[p]] && born == old(born) + multiset{p} && freeBuf == old(freeBuf)
      ensures forall x, u :: old(Rep(heap, x, u)) ==> Rep(heap, x, u)
      ensures Rewrites(old(Now()), Now(), multiset{}, multiset{p}, opKey, target)
      ensures Grew(old(heap), heap)
    {
      hide Traced, Rep, Keeps, Rewrites, Count, Ptrs, Grew;
      p := TreeBBNewNode();
      RepSize(heap, left, tl);
      RepSize(heap, right, tr);
      var n := Node(left, right, 1 + NodeSize(left) + NodeSize(right), key, value);
      GrowKeeps(Memory(), p, n, opKey, target);
      NewNodeRep(heap, p, n, tl, tr);
      GrewNew(heap, p, n);
      Store(p, n);
      t := Bin(p, key, value, tl, tr);
      NewNodeRewrites(old(Now()), p, n, opKey, target);
      forall x, u | old(Rep(heap, x, u)) ensures Rep(heap, x, u) {
        RepGrown(old(Now()), Now(), p, opKey, target, x, u);
      }
    }

    function NodeSize(p: Ptr): nat
      requires p == NULL || p in heap
      reads this
    {
      if p == NULL then 0 else heap[p].size
    }

    /** Distinct nodes the operation may rewrite or discard. */
    ghost predicate HeldBag(b: multiset<Ptr>)
      reads `live, `born
    {
      HeldIn(live, born, b)
    }

    /** What the operation left in place of nodes it held is held again. */
    lemma HeldAfter(s0: Snap, take: multiset<Ptr>, give: multiset<Ptr>)
      requires Traced()
      requires Rewrites(s0, Now(), take, give, opKey, target)
      requires HeldIn(live, s0.born, take) && forall x :: x in take ==> x in s0.mem.heap
      ensures HeldBag(give)
    {
      forall x | x in give ensures give[x] == 1 && Owned(x) {
        RewritesDistinct(s0, Now(), take, give, opKey, target, x);
        if x in take {
          assert s0.born <= born;
        }
      }
    }

    /** The part of a held tree a pointer leads to is owned. */
    lemma HeldKids(b: multiset<Ptr>, p: Ptr, t: Tree)
      requires HeldBag(b) && Ptrs(t) <= b && Rep(heap, p, t)
      ensures OwnedOrNull(p)
      ensures t.Bin? ==> p in heap && OwnedOrNull(heap[p].left) && OwnedOrNull(heap[p].right)
      ensures t.Bin? ==> Ptrs(t.l) <= b && Ptrs(t.r) <= b
    {
      RepSize(heap, p, t);
      if t.Bin? {
        hide Ptrs;
        PtrsBin(t);
        assert Ptrs(t.l) <= b && Ptrs(t.r) <= b;
        RepSize(heap, heap[p].left, t.l);
        RepSize(heap, heap[p].right, t.r);
      }
    }

    lemma HeldPair(left: Ptr, right: Ptr, tl: Tree, tr: Tree)
      requires HeldBag(Ptrs(tl) + Ptrs(tr)) && Rep(heap, left, tl) && Rep(heap, right, tr)
      ensures OwnedOrNull(left) && OwnedOrNull(right)
      ensures tl.Bin? ==> left in heap && OwnedOrNull(heap[left].left) && OwnedOrNull(heap[left].right)
      ensures tr.Bin? ==> right in heap && OwnedOrNull(heap[right].left) && OwnedOrNull(heap[right].right)
      ensures tl.Bin? ==> Ptrs(tl.r) <= Ptrs(tl) + Ptrs(tr)
      ensures tr.Bin? ==> Ptrs(tr.l) <= Ptrs(tl) + Ptrs(tr)
    {
      HeldKids(Ptrs(tl) + Ptrs(tr), left, tl);
      HeldKids(Ptrs(tl) + Ptrs(tr), right, tr);
    }

    method SingleL(left: Ptr, right: Ptr, key: int, value: int, ghost tl: Tree, ghost tr: Tree)
        returns (res: Ptr, ghost t: Tree)
      requires Traced() && Rep(heap, left, tl) && Rep(heap, right, tr) && HeldBag(Ptrs(tl) + Ptrs(tr))
      requires Bst(tl) && Bst(tr) && Splits(tl, key, tr) && tr.Bin?
      modifies `heap, `hist, `born, `freeBuf
      ensures Traced() && Rep(heap, res, t) && SameMap(t, tl, key, value, tr)
      ensures Rewrites(old(Now()), Now(), Ptrs(tl) + Ptrs(tr), Ptrs(t), opKey, target)
      ensures Grew(old(heap), heap) && |freeBuf| == |old(freeBuf)| + 1
      ensures Strip(t) == Fork(Fork(Strip(tl), key, value, Strip(tr.l)), tr.key, tr.value, Strip(tr.r))
    {
      hide Traced, Bst, Splits, SameMap, Keeps, Rewrites, HeldIn, Ptrs, Count, Rep, Keys, Look, Grew;
      ghost var s0 := Now();
      RepKids(heap, right, tr);
      HeldPair(left, right, tl, tr);
      var a, ta := MkNode(left, heap[right].left, key, value, tl, tr.l);
      ghost var s1 := Now();
      res, t := MkNode(a, heap[right].right, heap[right].key, heap[right].value, ta, tr.r);
      ghost var s2 := Now();
      GrewTrans(s0.mem.heap, s1.mem.heap, s2.mem.heap);
      TreeBBFreeNode(right);
      SingleLDone(s0, s1, s2, Now(), key, value, a, res, right, tl, tr, opKey, target);
    }

    method SingleR(left: Ptr, right: Ptr, key: int, value: int, ghost tl: Tree, ghost tr: Tree)
        returns (res: Ptr, ghost t: Tree)
      requires Traced() && Rep(heap, left, tl) && Rep(heap, right, tr) && HeldBag(Ptrs(tl) + Ptrs(tr))
      requires Bst(tl) && Bst(tr) && Splits(tl, key, tr) && tl.Bin?
      modifies `heap, `hist, `born, `freeBuf
      ensures Traced() && Rep(heap, res, t) && SameMap(t, tl, key, value, tr)
      ensures Rewrites(old(Now()), Now(), Ptrs(tl) + Ptrs(tr), Ptrs(t), opKey, target)
      ensures Grew(old(heap), heap) && |freeBuf| == |old(freeBuf)| + 1
      ensures Strip(t) == Fork(Strip(tl.l), tl.key, tl.value, Fork(Strip(tl.r), key, value, Strip(tr)))
    {
      hide Traced, Bst, Splits, SameMap, Keeps, Rewrites, HeldIn, Ptrs, Count, Rep, Keys, Look, Grew;
      ghost var s0 := Now();
      RepKids(heap, left, tl);
      HeldPair(left, right, tl, tr);
      var a, ta := MkNode(heap[left].right, right, key, value, tl.r, tr);
      ghost var s1 := Now();
      res, t := MkNode(heap[left].left, a, heap[left].key, heap[left].value, tl.l, ta);
      ghost var s2 := Now();
      GrewTrans(s0.mem.heap, s1.mem.heap, s2.mem.heap);
      TreeBBFreeNode(left);
      SingleRDone(s0, s1, s2, Now(), key, value, a, res, left, tl, tr, opKey, target);
    }

    /** A node over two new nodes over four subtrees. */
    method BuildThree(p1: Ptr, p2: Ptr, ka: int, va: int, p3: Ptr, p4: Ptr, kb: int, vb: int, k: int, v: int,
        ghost t1: Tree, ghost t2: Tree, ghost t3: Tree, ghost t4: Tree)
        returns (res: Ptr, ghost a: Ptr, ghost b: Ptr, ghost t: Tree)
      requires Traced() && Rep(heap, p1, t1) && Rep(heap, p2, t2) && Rep(heap, p3, t3) && Rep(heap, p4, t4)
      requires OwnedOrNull(p1) && OwnedOrNull(p2) && OwnedOrNull(p3) && OwnedOrNull(p4)
      modifies `heap, `hist, `born
      ensures Traced() && Rep(heap, res, t) && Grew(old(heap), heap) && freeBuf == old(freeBuf)
      ensures t == Bin(res, k, v, Bin(a, ka, va, t1, t2), Bin(b, kb, vb, t3, t4))
      ensures Rewrites(old(Now()), Now(), multiset{}, multiset{a} + multiset{b} + multiset{res}, opKey, target)
    {
      hide Traced, Keeps, Rewrites, HeldIn, Ptrs, Count, Rep, Grew;
      ghost var s0 := Now();
      ghost var ta, tb;
      var l, r: Ptr;
      l, ta := MkNode(p1, p2, ka, va, t1, t2);
      ghost var s1 := Now();
      r, tb := MkNode(p3, p4, kb, vb, t3, t4);
      ghost var s2 := Now();
      res, t := MkNode(l, r, k, v, ta, tb);
      a, b := l, r;
      GrewTrans(s0.mem.heap, s1.mem.heap, s2.mem.heap);
      GrewTrans(s0.mem.heap, s2.mem.heap, heap);
      ThreeRewrites(s0, s1, s2, Now(), a, b, res, opKey, target);
    }

    method DoubleL(left: Ptr, right: Ptr, key: int, value: int, ghost tl: Tree, ghost tr: Tree)
        returns (res: Ptr, ghost t: Tree)
      requires Traced() && Rep(heap, left, tl) && Rep(heap, right, tr) && HeldBag(Ptrs(tl) + Ptrs(tr))
      requires Bst(tl) && Bst(tr) && Splits(tl, key, tr) && tr.Bin? && tr.l.Bin?
      modifies `heap, `hist, `born, `freeBuf
      ensures Traced() && Rep(heap, res, t) && SameMap(t, tl, key, value, tr)
      ensures Rewrites(old(Now()), Now(), Ptrs(tl) + Ptrs(tr), Ptrs(t), opKey, target)
      ensures Grew(old(heap), heap) && |freeBuf| == |old(freeBuf)| + 2
      ensures Strip(t) == Fork(Fork(Strip(tl), key, value, Strip(tr.l.l)), tr.l.key, tr.l.value,
                               Fork(Strip(tr.l.r), tr.key, tr.value, Strip(tr.r)))
    {
      hide Traced, Bst, Splits, SameMap, Keeps, Rewrites, HeldIn, Ptrs, Count, Rep, Keys, Look, Grew, HeldBag;
      ghost var s0 := Now();
      RepKids(heap, right, tr);
      var mid := heap[right].left;
      RepKids(heap, mid, tr.l);
      HeldPair(left, right, tl, tr);
      HeldKids(Ptrs(tl) + Ptrs(tr), mid, tr.l);
      ghost var a, b;
      res, a, b, t := BuildThree(left, heap[mid].left, key, value, heap[mid].right, heap[right].right,
        heap[right].key, heap[right].value, heap[mid].key, heap[mid].value, tl, tr.l.l, tr.l.r, tr.r);
      ghost var s3 := Now();
      TreeBBFreeNode(mid);
      ghost var s4 := Now();
      TreeBBFreeNode(right);
      DoubleLDone(s0, s3, s4, Now(), key, value, a, b, res, mid, right, tl, tr, opKey, target);
    }

    method DoubleR(left: Ptr, right: Ptr, key: int, value: int, ghost tl: Tree, ghost tr: Tree)
        returns (res: Ptr, ghost t: Tree)
      requires Traced() && Rep(heap, left, tl) && Rep(heap, right, tr) && HeldBag(Ptrs(tl) + Ptrs(tr))
      requires Bst(tl) && Bst(tr) && Splits(tl, key, tr) && tl.Bin? && tl.r.Bin?
      modifies `heap, `hist, `born, `freeBuf
      ensures Traced() && Rep(heap, res, t) && SameMap(t, tl, key, value, tr)
      ensures Rewrites(old(Now()), Now(), Ptrs(tl) + Ptrs(tr), Ptrs(t), opKey, target)
      ensures Grew(old(heap), heap) && |freeBuf| == |old(freeBuf)| + 2
      ensures Strip(t) == Fork(Fork(Strip(tl.l), tl.key, tl.value, Strip(tl.r.l)), tl.r.key, tl.r.value,
                               Fork(Strip(tl.r.r), key, value, Strip(tr)))
    {
      hide Traced, Bst, Splits, SameMap, Keeps, Rewrites, HeldIn, Ptrs, Count, Rep, Keys, Look, Grew, HeldBag;
      ghost var s0 := Now();
      RepKids(heap, left, tl);
      var mid := heap[left].right;
      RepKids(heap, mid, tl.r);
      HeldPair(left, right, tl, tr);
      HeldKids(Ptrs(tl) + Ptrs(tr), mid, tl.r);
      ghost var a, b;
      res, a, b, t := BuildThree(heap[left].left, heap[mid].left, heap[left].key, heap[left].value, heap[mid].right,
        right, key, value, heap[mid].key, heap[mid].value, tl.l, tl.r.l, tl.r.r, tr);
      ghost var s3 := Now();
      TreeBBFreeNode(mid);
      ghost var s4 := Now();
      TreeBBFreeNode(left);
      DoubleRDone(s0, s3, s4, Now(), key, value, a, b, res, mid, left, tl, tr, opKey, target);
    }

    lemma HeldPart(b: multiset<Ptr>, c: multiset<Ptr>)
      requires HeldBag(b) && c <= b
      ensures HeldBag(c)
    {
    }

    /** The heavy right side guarantees the nodes the rotations dereference:
        with exact sizes an inner grandchild exists whenever `DoubleL` runs. */
    method MkBalancedL(left: Ptr, right: Ptr, key: int, value: int, ghost tl: Tree, ghost tr: Tree)
        returns (res: Ptr, ghost t: Tree)
      requires Traced() && Rep(heap, left, tl) && Rep(heap, right, tr) && HeldBag(Ptrs(tl) + Ptrs(tr))
      requires Bst(tl) && Bst(tr) && Splits(tl, key, tr)
      requires Count(tl) + Count(tr) >= 2 && Count(tr) > WEIGHT * Count(tl)
      modifies `heap, `hist, `born, `freeBuf
      ensures Traced() && Rep(heap, res, t) && SameMap(t, tl, key, value, tr)
      ensures Rewrites(old(Now()), Now(), Ptrs(tl) + Ptrs(tr), Ptrs(t), opKey, target)
      ensures Grew(old(heap), heap) && |freeBuf| <= |old(freeBuf)| + 2
      ensures Strip(t) == RotateL(Strip(tl), key, value, Strip(tr))
    {
      hide Strip, RotateL;
      hide Traced, Bst, Splits, SameMap, Keeps, Rewrites, HeldIn, Ptrs, Grew;
      RotateLIs(tl, key, value, tr);
      RepSize(heap, heap[right].left, tr.l);
      RepSize(heap, heap[right].right, tr.r);
      var rln := NodeSize(heap[right].left);
      var rrn := NodeSize(heap[right].right);
      if rln < rrn {
        res, t := SingleL(left, right, key, value, tl, tr);
      } else {
        res, t := DoubleL(left, right, key, value, tl, tr);
      }
    }

    method MkBalancedR(left: Ptr, right: Ptr, key: int, value: int, ghost tl: Tree, ghost tr: Tree)
        returns (res: Ptr, ghost t: Tree)
      requires Traced() && Rep(heap, left, tl) && Rep(heap, right, tr) && HeldBag(Ptrs(tl) + Ptrs(tr))
      requires Bst(tl) && Bst(tr) && Splits(tl, key, tr)
      requires Count(tl) + Count(tr) >= 2 && Count(tl) > WEIGHT * Count(tr)
      modifies `heap, `hist, `born, `freeBuf
      ensures Traced() && Rep(heap, res, t) && SameMap(t, tl, key, value, tr)
      ensures Rewrites(old(Now()), Now(), Ptrs(tl) + Ptrs(tr), Ptrs(t), opKey, target)
      ensures Grew(old(heap), heap) && |freeBuf| <= |old(freeBuf)| + 2
      ensures Strip(t) == RotateR(Strip(tl), key, value, Strip(tr))
    {
      hide Strip, RotateR;
      hide Traced, Bst, Splits, SameMap, Keeps, Rewrites, HeldIn, Ptrs, Grew;
      RotateRIs(tl, key, value, tr);
      RepSize(heap, heap[left].left, tl.l);
      RepSize(heap, heap[left].right, tl.r);
      var lln := NodeSize(heap[left].left);
      var lrn := NodeSize(heap[left].right);
      if lrn < lln {
        res, t := SingleR(left, right, key, value, tl, tr);
      } else {
        res, t := DoubleR(left, right, key, value, tl, tr);
      }
    }

    /** Visible write of one child pointer, if it changes, then the size. */
    method LinkInPlace(cur: Ptr, left: Ptr, right: Ptr, replace: int, ghost tl: Tree, ghost tr: Tree,
        ghost via: seq<Ptr>) returns (ghost t: Tree)
      requires Traced() && cur != NULL && cur in heap && Rep(heap, left, tl) && Rep(heap, right, tr)
      requires Owned(cur) && OwnedOrNull(left) && OwnedOrNull(right) && cur !in Ptrs(tl) && cur !in Ptrs(tr)
      requires if replace == 0 then heap[cur].right == right else heap[cur].left == left
      requires Due(Memory(), cur, Bin(cur, heap[cur].key, heap[cur].value, tl, tr), via, opKey, target)
      modifies `heap, `hist, `born
      ensures t == Bin(cur, old(heap)[cur].key, old(heap)[cur].value, tl, tr)
      ensures Traced() && Rep(heap, cur, t)
      ensures Rewrites(old(Now()), Now(), Ptrs(t), Ptrs(t), opKey, target)
      ensures |old(hist)| < |hist| <= |old(hist)| + 2 && hist[..|old(hist)|] == old(hist)
      ensures forall x :: x in heap ==> x in hist[|hist| - 2].heap && SameLinks(hist[|hist| - 2].heap[x], heap[x])
    {
      hide Traced, Keeps, Due, Ptrs, Rep, Rewrites, Count;
      ghost var m0 := Memory();
      LastShown();
      var n := heap[cur].(left := left, right := right);
      LinkKeeps(m0, cur, n, tl, tr, via, opKey, target);
      t := Bin(cur, n.key, n.value, tl, tr);
      if replace == 0 {
        if heap[cur].left != left {
          Store(cur, heap[cur].(left := left));
        }
      } else {
        if heap[cur].right != right {
          Store(cur, heap[cur].(right := right));
        }
      }
      ghost var m1 := Memory();
      LastShown();
      KeepsRefl(m0, opKey, target);
      assert heap == m0.heap[cur := n];
      RepSize(heap, left, tl);
      RepSize(heap, right, tr);
      var n' := heap[cur].(size := 1 + NodeSize(left) + NodeSize(right));
      SizeKeeps(m1, cur, n', opKey, target);
      Store(cur, n');
      KeepsTrans(m0, m1, Memory(), opKey, target);
      LinkedRep(m1.heap, cur, n', tl, tr);
      InPlaceRewrites(old(Now()), Now(), cur, Ptrs(tl) + Ptrs(tr), opKey, target);
      PtrsBin(t);
    }

    /** A node `cur` and two subtrees it may be rebuilt over. */
    ghost predicate Balanceable(cur: Ptr, left: Ptr, right: Ptr, tl: Tree, tr: Tree)
      reads this
    {
      && cur != NULL && cur in heap && Rep(heap, left, tl) && Rep(heap, right, tr)
      && Bst(tl) && Bst(tr) && Splits(tl, heap[cur].key, tr)
      && HeldBag(multiset{cur} + Ptrs(tl) + Ptrs(tr))
    }

    lemma BalanceableParts(cur: Ptr, left: Ptr, right: Ptr, tl: Tree, tr: Tree)
      requires Balanceable(cur, left, right, tl, tr)
      ensures HeldBag(Ptrs(tl) + Ptrs(tr)) && Owned(cur) && OwnedOrNull(left) && OwnedOrNull(right)
      ensures cur !in Ptrs(tl) && cur !in Ptrs(tr)
      ensures cur != NULL && cur in heap && Rep(heap, left, tl) && Rep(heap, right, tr)
      ensures Bst(tl) && Bst(tr) && Splits(tl, heap[cur].key, tr)
    {
      var b := multiset{cur} + Ptrs(tl) + Ptrs(tr);
      assert b[cur] == 1 + Ptrs(tl)[cur] + Ptrs(tr)[cur];
      assert cur in b;
      HeldPart(b, Ptrs(tl) + Ptrs(tr));
      HeldPair(left, right, tl, tr);
    }

    /** Rebuild `cur` over `left` and `right`: rotated if one side outweighs the
        other, else linked in place or copied. */
    method MkBalanced(cur: Ptr, left: Ptr, right: Ptr, replace: int, inPlace: bool, ghost tl: Tree, ghost tr: Tree,
        ghost via: seq<Ptr>)
        returns (res: Ptr, ghost t: Tree)
      requires Traced() && Balanceable(cur, left, right, tl, tr)
      requires inPlace ==> if replace == 0 then heap[cur].right == right else heap[cur].left == left
      requires inPlace ==> Due(Memory(), cur, Bin(cur, heap[cur].key, heap[cur].value, tl, tr), via, opKey, target)
      modifies `heap, `hist, `born, `freeBuf
      ensures Traced() && Rep(heap, res, t) && SameMap(t, tl, old(heap)[cur].key, old(heap)[cur].value, tr)
      ensures Rewrites(old(Now()), Now(), multiset{cur} + Ptrs(tl) + Ptrs(tr), Ptrs(t), opKey, target)
      ensures !inPlace ==> Grew(old(heap), heap)
      ensures |freeBuf| <= |old(freeBuf)| + 3
      ensures Strip(t) == Balance(Strip(tl), old(heap)[cur].key, old(heap)[cur].value, Strip(tr))
    {
      hide Balance, RotateL, RotateR, Size;
      hide Traced, Bst, Splits, Keeps, Rewrites, HeldIn, Rep, Balanceable, Due, Ptrs, Count, Grew;
      BalanceableParts(cur, left, right, tl, tr);
      BalanceIs(tl, heap[cur].key, heap[cur].value, tr);
      RepSize(heap, left, tl);
      RepSize(heap, right, tr);
      var ln, rn := NodeSize(left), NodeSize(right);
      var key, value := heap[cur].key, heap[cur].value;
      if ln + rn >= 2 && (rn > WEIGHT * ln || ln > WEIGHT * rn) {
        if rn > WEIGHT * ln {
          res, t := MkBalancedL(left, right, key, value, tl, tr);
        } else {
          res, t := MkBalancedR(left, right, key, value, tl, tr);
        }
        ghost var s1 := Now();
        TreeBBFreeNode(cur);
        RotatedDone(old(Now()), s1, Now(), cur, Ptrs(tl), Ptrs(tr), Ptrs(t), opKey, target);
      } else if inPlace {
        t := LinkInPlace(cur, left, right, replace, tl, tr, via);
        res := cur;
        BinSameMap(cur, tl, key, value, tr);
      } else {
        res, t := MkNode(left, right, key, value, tl, tr);
        ghost var s1 := Now();
        TreeBBFreeNode(cur);
        CopiedDone(old(Now()), s1, Now(), cur, res, Ptrs(tl), Ptrs(tr), opKey, target);
        BinSameMap(res, tl, key, value, tr);
      }
    }

    /** The subtree below `p` was rewritten: the other parts of the tree stand,
        and `p` can be rebuilt over the new subtree. */
    lemma AfterLeft(s0: Snap, p: Ptr, q: Ptr, t: Tree, l: Tree, k: int, goal: Answer, via: seq<Ptr>)
      requires Traced()
      requires Rep(s0.mem.heap, p, t) && HeldIn(live, s0.born, Ptrs(t)) && t.Bin? && Bst(t) && k < t.key
      requires Rewrites(s0, Now(), Ptrs(t.l), Ptrs(l), opKey, target)
      requires Rep(heap, q, l) && Updated(t.l, l, k, goal)
      ensures Rewrites(s0, Now(), Ptrs(t), multiset{p} + Ptrs(l) + Ptrs(t.r), opKey, target)
      ensures p in heap && heap[p] == s0.mem.heap[p]
      ensures Balanceable(p, q, heap[p].right, l, t.r)
      ensures forall t' :: SameMap(t', l, t.key, t.value, t.r) ==> Updated(t, t', k, goal)
      ensures Passed(s0.mem, p, via, t.l, k) && k == opKey && goal == target ==>
                Due(Memory(), p, Bin(p, t.key, t.value, l, t.r), via, opKey, target)
    {
      hide Traced, Keeps, HeldIn, Owned, Rewrites, Rep, Ptrs, Bst, Updated, Splits, Due, Path, SameMap, Look;
      RepKids(s0.mem.heap, p, t);
      BstKids(t);
      BagLeft(p, t, Ptrs(l));
      RewritesFrame(s0, Now(), Ptrs(t.l), Ptrs(l), multiset{p} + Ptrs(t.r), opKey, target);
      RepIn(s0.mem.heap, p, t);
      HeldAfter(s0, Ptrs(t), multiset{p} + Ptrs(l) + Ptrs(t.r));
      HeldApart(s0, t);
      FrameAt(s0, Now(), Ptrs(t.l), Ptrs(l), opKey, target, p);
      UpdatedBst(t.l, l, k, goal);
      RepKept(s0, Now(), Ptrs(t.l), Ptrs(l), opKey, target, s0.mem.heap[p].right, t.r);
      UpdatedLeft(t, l, k, goal);
      RewritesKeeps(s0, Now(), Ptrs(t.l), Ptrs(l), opKey, target);
      if Passed(s0.mem, p, via, t.l, k) && k == opKey && goal == target {
        DueAfter(s0.mem, Memory(), p, t, Bin(p, t.key, t.value, l, t.r), via, k, target);
      }
    }

    lemma AfterRight(s0: Snap, p: Ptr, q: Ptr, t: Tree, r: Tree, k: int, goal: Answer, via: seq<Ptr>)
      requires Traced()
      requires Rep(s0.mem.heap, p, t) && HeldIn(live, s0.born, Ptrs(t)) && t.Bin? && Bst(t) && t.key < k
      requires Rewrites(s0, Now(), Ptrs(t.r), Ptrs(r), opKey, target)
      requires Rep(heap, q, r) && Updated(t.r, r, k, goal)
      ensures Rewrites(s0, Now(), Ptrs(t), multiset{p} + Ptrs(t.l) + Ptrs(r), opKey, target)
      ensures p in heap && heap[p] == s0.mem.heap[p]
      ensures Balanceable(p, heap[p].left, q, t.l, r)
      ensures forall t' :: SameMap(t', t.l, t.key, t.value, r) ==> Updated(t, t', k, goal)
      ensures Passed(s0.mem, p, via, t.r, k) && k == opKey && goal == target ==>
                Due(Memory(), p, Bin(p, t.key, t.value, t.l, r), via, opKey, target)
    {
      hide Traced, Keeps, HeldIn, Owned, Rewrites, Rep, Ptrs, Bst, Updated, Splits, Due, Path, SameMap, Look;
      RepKids(s0.mem.heap, p, t);
      BstKids(t);
      BagRight(p, t, Ptrs(r));
      RewritesFrame(s0, Now(), Ptrs(t.r), Ptrs(r), multiset{p} + Ptrs(t.l), opKey, target);
      RepIn(s0.mem.heap, p, t);
      HeldAfter(s0, Ptrs(t), multiset{p} + Ptrs(t.l) + Ptrs(r));
      HeldApart(s0, t);
      FrameAt(s0, Now(), Ptrs(t.r), Ptrs(r), opKey, target, p);
      UpdatedBst(t.r, r, k, goal);
      RepKept(s0, Now(), Ptrs(t.r), Ptrs(r), opKey, target, s0.mem.heap[p].left, t.l);
      UpdatedRight(t, r, k, goal);
      RewritesKeeps(s0, Now(), Ptrs(t.r), Ptrs(r), opKey, target);
      if Passed(s0.mem, p, via, t.r, k) && k == opKey && goal == target {
        DueAfter(s0.mem, Memory(), p, t, Bin(p, t.key, t.value, t.l, r), via, k, target);
      }
    }

    lemma HeldApart(s0: Snap, t: Tree)
      requires HeldIn(live, s0.born, Ptrs(t)) && t.Bin?
      ensures t.ptr !in Ptrs(t.l) && t.ptr !in Ptrs(t.r) && Ptrs(t.l) !! Ptrs(t.r)
    {
      Apart(t);
    }

    method Insert(p: Ptr, k: int, v: int, ghost t: Tree, ghost via: seq<Ptr>) returns (q: Ptr, ghost t': Tree)
      requires Traced() && Rep(heap, p, t) && Bst(t) && HeldBag(Ptrs(t))
      requires k == opKey && target == (if Look(t, k).Some? then Look(t, k) else Some(v))
      requires Path(heap, root, k, via, p) && forall x :: x in via ==> x !in Ptrs(t)
      modifies `heap, `hist, `born, `freeBuf
      ensures Traced() && Rep(heap, q, t') && Updated(t, t', k, target) && HeldBag(Ptrs(t'))
      ensures Rewrites(old(Now()), Now(), Ptrs(t), Ptrs(t'), opKey, target)
      ensures |freeBuf| <= |old(freeBuf)| + 3 * Height(t)
      ensures Strip(t') == InsertP(Strip(t), k, v)
      decreases t
    {
      hide Balance, Size;
      hide Traced, Keeps, HeldIn, Balanceable, Due, SameMap, Rep, Look, Updated, Rewrites, Ptrs, Bst, Path, Count, Keys;
      hide Owned, Next;
      ghost var s0 := Now();
      RepSize(heap, p, t);
      if p == NULL {
        q, t' := MkNode(NULL, NULL, k, v, Nil, Nil);
        LeafUpdated(t, q, k, v);
        HeldAfter(s0, multiset{}, Ptrs(t'));
      } else if k < heap[p].key {
        RepKids(heap, p, t);
        Descend(p, t, k, via);
        var q1, l := Insert(heap[p].left, k, v, t.l, via + [p]);
        ghost var s1 := Now();
        AfterLeft(s0, p, q1, t, l, k, target, via);
        q, t' := MkBalanced(p, q1, heap[p].right, 0, true, l, t.r, via);
        FinishOp(s0, s1, t, multiset{p} + Ptrs(l) + Ptrs(t.r), t');
      } else if k > heap[p].key {
        RepKids(heap, p, t);
        Descend(p, t, k, via);
        var q1, r := Insert(heap[p].right, k, v, t.r, via + [p]);
        ghost var s1 := Now();
        AfterRight(s0, p, q1, t, r, k, target, via);
        q, t' := MkBalanced(p, heap[p].left, q1, 1, true, t.l, r, via);
        FinishOp(s0, s1, t, multiset{p} + Ptrs(t.l) + Ptrs(r), t');
      } else {
        q, t' := p, t;
        RepKids(heap, p, t);
        SameUpdated(t, k);
        RewritesRefl(Now(), Ptrs(t), opKey, target);
      }
    }

    /** The subtree a search for `k` moves to, ready for the recursive call. */
    lemma Descend(p: Ptr, t: Tree, k: int, via: seq<Ptr>)
      requires Rep(heap, p, t) && t.Bin? && Bst(t) && HeldBag(Ptrs(t)) && k != t.key
      requires Path(heap, root, k, via, p) && forall x :: x in via ==> x !in Ptrs(t)
      ensures p != NULL && p in heap && heap[p].key == t.key && heap[p].value == t.value && p !in via
      ensures var u := if k < t.key then t.l else t.r; var c := Next(heap[p], k);
        && c == (if k < t.key then heap[p].left else heap[p].right)
        && Rep(heap, c, u) && Bst(u) && HeldBag(Ptrs(u)) && Look(u, k) == Look(t, k)
        && Path(heap, root, k, via + [p], c) && (forall x :: x in via + [p] ==> x !in Ptrs(u))
    {
      hide Path;
      var u := if k < t.key then t.l else t.r;
      PathExtend(heap, root, k, via, p);
      PtrsBin(t);
      HeldPart(Ptrs(t), Ptrs(u));
      Apart(t);
      assert Ptrs(u) <= Ptrs(t);
      assert p in Ptrs(t);
    }

    lemma FinishOp(s0: Snap, s1: Snap, t: Tree, mid: multiset<Ptr>, t': Tree)
      requires Traced()
      requires Rep(s0.mem.heap, if t.Bin? then t.ptr else NULL, t) && HeldIn(live, s0.born, Ptrs(t))
      requires Rewrites(s0, s1, Ptrs(t), mid, opKey, target) && Rewrites(s1, Now(), mid, Ptrs(t'), opKey, target)
      ensures Rewrites(s0, Now(), Ptrs(t), Ptrs(t'), opKey, target) && HeldBag(Ptrs(t'))
    {
      hide Traced, Keeps, HeldIn, Rewrites;
      assert mid + multiset{} == mid && Ptrs(t) + multiset{} == Ptrs(t);
      RewritesTrans(s0, s1, Now(), Ptrs(t), mid, multiset{}, Ptrs(t'), opKey, target);
      RepIn(s0.mem.heap, if t.Bin? then t.ptr else NULL, t);
      HeldAfter(s0, Ptrs(t), Ptrs(t'));
    }

    /** Takes the least node out of the subtree below `node`, without touching
        the subtree: readers may still be walking to that node. */
    method DeleteMin(node: Ptr, ghost t: Tree) returns (q: Ptr, min: Ptr, ghost t': Tree)
      requires Traced() && Rep(heap, node, t) && Bst(t) && HeldBag(Ptrs(t)) && t.Bin?
      modifies `heap, `hist, `born, `freeBuf
      ensures Traced() && Rep(heap, q, t') && min != NULL && min in heap && HeldBag(Ptrs(t') + multiset{min})
      ensures Updated(t, t', heap[min].key, None) && Look(t, heap[min].key) == Some(heap[min].value)
      ensures forall x :: x in Keys(t') ==> heap[min].key < x
      ensures Rewrites(old(Now()), Now(), Ptrs(t), Ptrs(t') + multiset{min}, opKey, target)
      ensures Grew(old(heap), heap) && |freeBuf| <= |old(freeBuf)| + 3 * (Height(t) - 1)
      ensures Strip(t).Fork? && Strip(t') == WithoutMin(Strip(t)) && (heap[min].key, heap[min].value) == Min(Strip(t))
      decreases t
    {
      hide Balance, Size;
      hide Traced, Keeps, HeldIn, Balanceable, Due, SameMap, Rep, Look, Updated, Rewrites, Ptrs, Bst, Path, Count, Keys;
      hide Owned, Next, Grew;
      ghost var s0 := Now();
      RepKids(heap, node, t);
      var left, right := heap[node].left, heap[node].right;
      RepSize(heap, left, t.l);
      if left == NULL {
        q, min, t' := right, node, t.r;
        GrewRefl(heap);
        MinHere(t);
        RewritesRefl(Now(), Ptrs(t), opKey, target);
      } else {
        BstKids(t);
        HeldLeft(t);
        var q1: Ptr;
        ghost var l: Tree;
        q1, min, l := DeleteMin(left, t.l);
        ghost var s1 := Now();
        ghost var m, v := heap[min].key, heap[min].value;
        MinLeft(t, l, m, v);
        AfterMin(s0, node, q1, t, l, min);
        q, t' := MkBalanced(node, q1, right, 0, false, l, t.r, []);
        GrewTrans(s0.mem.heap, s1.mem.heap, heap);
        FinishMin(s0, s1, node, t, l, t', min);
      }
    }

    lemma HeldOnce(b: multiset<Ptr>, x: Ptr)
      requires HeldBag(b + multiset{x})
      ensures x !in b
    {
      assert (b + multiset{x})[x] == b[x] + 1;
    }

    lemma HeldLeft(t: Tree)
      requires HeldBag(Ptrs(t)) && t.Bin?
      ensures HeldBag(Ptrs(t.l)) && HeldBag(Ptrs(t.r))
    {
      PtrsBin(t);
      assert Ptrs(t.l) <= Ptrs(t) && Ptrs(t.r) <= Ptrs(t);
    }

    lemma AfterMin(s0: Snap, p: Ptr, q: Ptr, t: Tree, l: Tree, min: Ptr)
      requires Traced()
      requires Rep(s0.mem.heap, p, t) && HeldIn(live, s0.born, Ptrs(t)) && t.Bin? && Bst(t)
      requires Rewrites(s0, Now(), Ptrs(t.l), Ptrs(l) + multiset{min}, opKey, target)
      requires min in heap && heap[min].key < t.key && Rep(heap, q, l) && Updated(t.l, l, heap[min].key, None)
      ensures Rewrites(s0, Now(), Ptrs(t), multiset{p} + Ptrs(l) + Ptrs(t.r) + multiset{min}, opKey, target)
      ensures min !in multiset{p} + Ptrs(l) + Ptrs(t.r)
      ensures p in heap && heap[p] == s0.mem.heap[p] && s0.mem.heap[p].key == t.key && s0.mem.heap[p].value == t.value
      ensures Balanceable(p, q, heap[p].right, l, t.r)
      ensures forall t' :: SameMap(t', l, t.key, t.value, t.r) ==> Updated(t, t', heap[min].key, None)
    {
      hide Traced, Keeps, HeldIn, Owned, Rewrites, Rep, Ptrs, Bst, Updated, Splits, Due, Path, SameMap, Look;
      RepKids(s0.mem.heap, p, t);
      BstKids(t);
      var give := multiset{p} + Ptrs(l) + Ptrs(t.r) + multiset{min};
      BagLeft(p, t, Ptrs(l) + multiset{min});
      BagMove(p, Ptrs(l), min, Ptrs(t.r));
      RewritesFrame(s0, Now(), Ptrs(t.l), Ptrs(l) + multiset{min}, multiset{p} + Ptrs(t.r), opKey, target);
      RepIn(s0.mem.heap, p, t);
      HeldAfter(s0, Ptrs(t), give);
      HeldPart(give, multiset{p} + Ptrs(l) + Ptrs(t.r));
      HeldOnce(multiset{p} + Ptrs(l) + Ptrs(t.r), min);
      HeldApart(s0, t);
      FrameAt(s0, Now(), Ptrs(t.l), Ptrs(l) + multiset{min}, opKey, target, p);
      UpdatedBst(t.l, l, heap[min].key, None);
      RepKept(s0, Now(), Ptrs(t.l), Ptrs(l) + multiset{min}, opKey, target, s0.mem.heap[p].right, t.r);
      UpdatedLeft(t, l, heap[min].key, None);
    }

    lemma FinishMin(s0: Snap, s1: Snap, p: Ptr, t: Tree, l: Tree, t': Tree, min: Ptr)
      requires Traced()
      requires Rep(s0.mem.heap, p, t) && HeldIn(live, s0.born, Ptrs(t)) && t.Bin?
      requires Rewrites(s0, s1, Ptrs(t), multiset{p} + Ptrs(l) + Ptrs(t.r) + multiset{min}, opKey, target)
      requires min !in multiset{p} + Ptrs(l) + Ptrs(t.r)
      requires min in s1.mem.heap
      requires Rewrites(s1, Now(), multiset{p} + Ptrs(l) + Ptrs(t.r), Ptrs(t'), opKey, target)
      ensures Rewrites(s0, Now(), Ptrs(t), Ptrs(t') + multiset{min}, opKey, target)
      ensures HeldBag(Ptrs(t') + multiset{min}) && min in heap && heap[min] == s1.mem.heap[min]
    {
      hide Traced, Keeps, HeldIn, Rewrites, Ptrs, Rep;
      var mid := multiset{p} + Ptrs(l) + Ptrs(t.r);
      RewritesFrame(s1, Now(), mid, Ptrs(t'), multiset{min}, opKey, target);
      FrameAt(s1, Now(), mid, Ptrs(t'), opKey, target, min);
      assert mid + multiset{min} + multiset{} == mid + multiset{min} && Ptrs(t) + multiset{} == Ptrs(t);
      RewritesTrans(s0, s1, Now(), Ptrs(t), mid + multiset{min}, multiset{}, Ptrs(t') + multiset{min}, opKey, target);
      RepIn(s0.mem.heap, p, t);
      HeldAfter(s0, Ptrs(t), Ptrs(t') + multiset{min});
    }

    method Delete(node: Ptr, key: int, ghost t: Tree, ghost via: seq<Ptr>)
        returns (q: Ptr, deleted: int, ghost t': Tree)
      requires Traced() && Rep(heap, node, t) && Bst(t) && HeldBag(Ptrs(t))
      requires key == opKey && target == None
      requires Path(heap, root, key, via, node) && forall x :: x in via ==> x !in Ptrs(t)
      modifies `heap, `hist, `born, `freeBuf
      ensures Traced() && Rep(heap, q, t') && Updated(t, t', key, None) && HeldBag(Ptrs(t'))
      ensures deleted == if Look(t, key).Some? then Look(t, key).value else 0
      ensures Rewrites(old(Now()), Now(), Ptrs(t), Ptrs(t'), opKey, target)
      ensures |freeBuf| <= |old(freeBuf)| + 3 * Height(t) + 1
      ensures Strip(t') == DeleteP(Strip(t), key)
      decreases t
    {
      hide Balance, Size;
      hide Traced, Keeps, HeldIn, Balanceable, Due, SameMap, Rep, Look, Updated, Rewrites, Ptrs, Bst, Path, Count, Keys;
      hide Owned, Next;
      ghost var s0 := Now();
      RepSize(heap, node, t);
      if node == NULL {
        q, deleted, t' := NULL, 0, t;
        NilUpdated(t, key);
        RewritesRefl(Now(), Ptrs(t), opKey, target);
        return;
      }
      RepKids(heap, node, t);
      var left, right := heap[node].left, heap[node].right;
      if key < heap[node].key {
        Descend(node, t, key, via);
        var q1: Ptr;
        ghost var l: Tree;
        q1, deleted, l := Delete(left, key, t.l, via + [node]);
        ghost var s1 := Now();
        AfterLeft(s0, node, q1, t, l, key, None, via);
        q, t' := MkBalanced(node, q1, right, 0, true, l, t.r, via);
        FinishOp(s0, s1, t, multiset{node} + Ptrs(l) + Ptrs(t.r), t');
      } else if key > heap[node].key {
        Descend(node, t, key, via);
        var q1: Ptr;
        ghost var r: Tree;
        q1, deleted, r := Delete(right, key, t.r, via + [node]);
        ghost var s1 := Now();
        AfterRight(s0, node, q1, t, r, key, None, via);
        q, t' := MkBalanced(node, left, q1, 1, true, t.l, r, via);
        FinishOp(s0, s1, t, multiset{node} + Ptrs(t.l) + Ptrs(r), t');
      } else {
        deleted := heap[node].value;
        q, t' := DeleteFound(node, t);
      }
    }

    /** The node found leaves; if it has two children, a copy of the least node
        on its right takes its place. */
    method DeleteFound(node: Ptr, ghost t: Tree) returns (q: Ptr, ghost t': Tree)
      requires Traced() && Rep(heap, node, t) && t.Bin? && Bst(t) && HeldBag(Ptrs(t))
      modifies `heap, `hist, `born, `freeBuf
      ensures Traced() && Rep(heap, q, t') && Updated(t, t', t.key, None) && HeldBag(Ptrs(t'))
      ensures Look(t, t.key) == Some(t.value)
      ensures Rewrites(old(Now()), Now(), Ptrs(t), Ptrs(t'), opKey, target)
      ensures |freeBuf| <= |old(freeBuf)| + 3 * Height(t) + 1
      ensures Strip(t).Fork? && Strip(t') == RootGone(Strip(t))
    {
      hide Balance, Size;
      hide Traced, Keeps, HeldIn, Balanceable, Due, SameMap, Rep, Look, Updated, Rewrites, Ptrs, Bst, Path, Count, Keys;
      hide Owned, Next;
      ghost var s0 := Now();
      RepKids(heap, node, t);
      LookHere(t);
      var left, right := heap[node].left, heap[node].right;
      RepSize(heap, left, t.l);
      RepSize(heap, right, t.r);
      TreeBBFreeNode(node);
      ghost var s1 := Now();
      if left == NULL || right == NULL {
        if left == NULL {
          q, t' := right, t.r;
        } else {
          q, t' := left, t.l;
        }
        DeleteHere(t, t');
        UnlinkRewrites(s0, s1, node, Ptrs(t'), opKey, target);
        FinishFound(s0, t, t');
      } else {
        BstKids(t);
        HeldLeft(t);
        var r1, min: Ptr;
        ghost var r: Tree;
        r1, min, r := DeleteMin(right, t.r);
        ghost var s2 := Now();
        DeleteLifts(t, r, heap[min].key, heap[min].value);
        AfterLift(s0, s1, t, r1, r, min);
        q, t' := MkBalanced(min, left, r1, 1, false, t.l, r, []);
        FinishOp(s0, s2, t, multiset{min} + Ptrs(t.l) + Ptrs(r), t');
      }
    }

    lemma FinishFound(s0: Snap, t: Tree, t': Tree)
      requires Traced()
      requires t.Bin? && Rep(s0.mem.heap, t.ptr, t) && HeldIn(live, s0.born, Ptrs(t))
      requires Rewrites(s0, Now(), Ptrs(t), Ptrs(t'), opKey, target)
      ensures HeldBag(Ptrs(t'))
    {
      hide Traced, Keeps, HeldIn, Rewrites;
      RepIn(s0.mem.heap, t.ptr, t);
      HeldAfter(s0, Ptrs(t), Ptrs(t'));
    }

    lemma AfterLift(s0: Snap, s1: Snap, t: Tree, r1: Ptr, r: Tree, min: Ptr)
      requires Traced()
      requires t.Bin? && Rep(s0.mem.heap, t.ptr, t) && HeldIn(live, s0.born, Ptrs(t)) && Bst(t)
      requires Rewrites(s0, s1, multiset{t.ptr}, multiset{}, opKey, target)
      requires Rewrites(s1, Now(), Ptrs(t.r), Ptrs(r) + multiset{min}, opKey, target)
      requires min != NULL && min in heap && Rep(heap, r1, r) && Bst(r) && Splits(t.l, heap[min].key, r)
      ensures Rewrites(s0, Now(), Ptrs(t), multiset{min} + Ptrs(t.l) + Ptrs(r), opKey, target)
      ensures Balanceable(min, s0.mem.heap[t.ptr].left, r1, t.l, r)
    {
      hide Traced, Keeps, HeldIn, Owned, Rewrites, Rep, Ptrs, Bst, Splits;
      var give := multiset{min} + Ptrs(t.l) + Ptrs(r);
      RepKids(s0.mem.heap, t.ptr, t);
      BstKids(t);
      RewritesSeq(s0, s1, Now(), multiset{t.ptr}, multiset{}, Ptrs(t.r), Ptrs(r) + multiset{min}, opKey, target);
      RewritesFrame(s0, Now(), multiset{t.ptr} + Ptrs(t.r), multiset{} + (Ptrs(r) + multiset{min}), Ptrs(t.l), opKey,
          target);
      BagLift(t, min, Ptrs(r));
      RepIn(s0.mem.heap, t.ptr, t);
      HeldAfter(s0, Ptrs(t), give);
      HeldApart(s0, t);
      assert Ptrs(t.l) !! multiset{t.ptr} + Ptrs(t.r);
      RepKept(s0, Now(), multiset{t.ptr} + Ptrs(t.r), multiset{} + (Ptrs(r) + multiset{min}), opKey, target,
          s0.mem.heap[t.ptr].left, t.l);
    }

    /** Between operations: the root leads to an ordered tree of distinct nodes
        with every size field exact. */
    ghost predicate Ready()
      reads this
    {
      && Rep(heap, root, shape) && Bst(shape) && NULL !in heap
      && forall x :: x in Ptrs(shape) ==> Ptrs(shape)[x] == 1
    }

    ghost function Model(): map<int, int>
      reads this
    {
      Contents(shape)
    }

    ghost method Begin(k: int, goal: Answer)
      requires Ready()
      modifies `opKey, `target, `live, `born, `start, `hist
      ensures opKey == k && target == goal && born == multiset{} && start == Memory()
      ensures live == (set x | x in Ptrs(shape))
      ensures Traced() && HeldBag(Ptrs(shape)) && Path(heap, root, k, [], root)
    {
      hide Rep, Ptrs, Contained, Keeps;
      opKey, target := k, goal;
      live := set x | x in Ptrs(shape);
      born := multiset{};
      start := Memory();
      hist := [start];
      StartContained(heap, root, shape, live);
    }

    /** The root pointer is written only if the root node changed. */
    method PublishRoot(nroot: Ptr, ghost t': Tree)
      requires Traced() && Rep(heap, nroot, t') && OwnedOrNull(nroot)
      requires forall j, r ::
                 Answers(heap, root, j, r) ==>
                   Answers(heap, nroot, j, r) || (j == opKey && Answers(heap, nroot, opKey, target))
      modifies `root, `hist
      ensures root == nroot && Traced()
    {
      hide Keeps, Rep, Answers, Contained, StepAt, SameKv, Chain;
      ChainLast(hist, opKey, target);
      ghost var m := Memory();
      if root != nroot {
        root := nroot;
        RootKeeps(m, nroot, opKey, target);
        ContainedRoot(start.heap, live, m, nroot);
        ChainExtend(hist, Memory(), opKey, target);
        hist := hist + [Memory()];
      }
    }

    /** What a finished operation has done: the run of memories, and the fate
        of every node. */
    twostate predicate Finished(k: int, goal: Answer)
      reads this
    {
      && Ready() && Traced() && opKey == k && target == goal
      && start == old(Memory())
      && live == (set x | x in old(Ptrs(shape)))
      && old(freeBuf) <= freeBuf
      && Accounted(old(shape), born, freeBuf[|old(freeBuf)|..], shape)
    }

    /** What holds when the recursion has returned the new root. */
    lemma Settle(s0: Snap, t: Tree, nroot: Ptr, t': Tree)
      requires Traced() && Rep(heap, nroot, t') && HeldBag(Ptrs(t')) && s0.born == multiset{}
      requires Rep(s0.mem.heap, s0.mem.root, t) && Updated(t, t', opKey, target)
      requires Rewrites(s0, Now(), Ptrs(t), Ptrs(t'), opKey, target)
      ensures OwnedOrNull(nroot) && NULL !in heap
      ensures forall j, r ::
                Answers(heap, root, j, r) ==>
                  Answers(heap, nroot, j, r) || (j == opKey && Answers(heap, nroot, opKey, target))
      ensures forall x :: x in Ptrs(t') ==> Ptrs(t')[x] == 1
      ensures s0.freed <= freeBuf && Ptrs(t') + multiset(freeBuf) == Ptrs(t) + multiset(s0.freed) + born
      ensures forall x :: x in born ==> born[x] == 1 && x !in start.heap
      ensures Bst(t')
    {
      hide Rep, Keeps, Look, Answers;
      RepSize(heap, nroot, t');
      SettleAnswers(s0.mem, Memory(), nroot, t, t', opKey, target);
      assert Ptrs(t') + multiset(freeBuf) + multiset{} == Ptrs(t') + multiset(freeBuf);
    }

    /** The root publish that ends every operation. */
    method Complete(nroot: Ptr, ghost s0: Snap, ghost t': Tree)
      requires Traced() && Rep(heap, nroot, t') && HeldBag(Ptrs(t')) && s0.mem == start && s0.born == multiset{}
      requires Rep(start.heap, start.root, shape) && Bst(shape) && Updated(shape, t', opKey, target)
      requires forall x :: x in Ptrs(shape) ==> Ptrs(shape)[x] == 1
      requires Rewrites(s0, Now(), Ptrs(shape), Ptrs(t'), opKey, target)
      modifies `root, `hist, `shape
      ensures shape == t' && Ready() && Traced()
      ensures s0.freed <= freeBuf && Accounted(old(shape), born, freeBuf[|s0.freed|..], shape)
    {
      hide Traced, Keeps, HeldIn, Rewrites, Rep, Updated, Ptrs, Bst, Accounted, Answers;
      Settle(s0, shape, nroot, t');
      PublishRoot(nroot, t');
      RepIn(s0.mem.heap, s0.mem.root, shape);
      AccountedFor(shape, s0.freed, born, freeBuf, t');
      shape := t';
    }

    method TreeBB_Insert(key: int, value: int)
      requires Ready()
      modifies this
      ensures Finished(key, Some(if key in old(Model()) then old(Model())[key] else value))
      ensures Model() == if key in old(Model()) then old(Model()) else old(Model())[key := value]
      ensures |freeBuf| <= |old(freeBuf)| + 3 * Height(old(shape))
      ensures Strip(shape) == InsertP(old(Strip(shape)), key, value)
    {
      hide Strip, InsertP, DeleteP;
      hide Traced, Keeps, HeldIn, Rewrites, Rep, Updated, Path, Ptrs, Keys, Look, Bst, Contents, Accounted;
      ContentsLook(shape, key);
      Begin(key, if Look(shape, key).Some? then Look(shape, key) else Some(value));
      ghost var s0 := Now();
      var nroot: Ptr;
      ghost var t': Tree;
      nroot, t' := Insert(root, key, value, shape, []);
      Complete(nroot, s0, t');
      ContentsUpdated(old(shape), t', key, target);
    }

    method TreeBB_Delete(key: int) returns (deleted: int)
      requires Ready()
      modifies this
      ensures Finished(key, None)
      ensures Model() == old(Model()) - {key}
      ensures deleted == if key in old(Model()) then old(Model())[key] else 0
      ensures |freeBuf| <= |old(freeBuf)| + 3 * Height(old(shape)) + 1
      ensures Strip(shape) == DeleteP(old(Strip(shape)), key)
    {
      hide Strip, InsertP, DeleteP;
      hide Traced, Keeps, HeldIn, Rewrites, Rep, Updated, Path, Ptrs, Keys, Look, Bst, Contents, Accounted;
      ContentsLook(shape, key);
      Begin(key, None);
      ghost var s0 := Now();
      var nroot: Ptr;
      ghost var t': Tree;
      nroot, deleted, t' := Delete(root, key, shape, []);
      Complete(nroot, s0, t');
      ContentsUpdated(old(shape), t', key, target);
    }

    /** A discarded node goes back to the allocator. */
    method Reclaim(x: Ptr)
      requires Ready() && x !in Ptrs(shape)
      modifies `heap
      ensures heap == old(heap) - {x} && Ready()
    {
      heap := heap - {x};
      RepIn(old(heap), root, shape);
      RepFrame(old(heap), heap, root, shape);
    }
  }
}
