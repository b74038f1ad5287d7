/** Node memory of the concurrent tree.

    Nodes live at addresses in one heap that the writer changes one store at a
    time while readers walk through it.  What matters about a node to a reader
    is what a search started there answers, so that is the notion everything
    else in the tree modules is stated with. */
module NodeHeap {
  import opened Common

  type Ptr = nat

  const NULL: Ptr := 0

  type Answer = Option<int>

  datatype Node = Node(left: Ptr, right: Ptr, size: nat, key: int, value: int)

  type Heap = map<Ptr, Node>

  /** Everything a reader can look at: node memory and the root pointer. */
  datatype Mem = Mem(heap: Heap, root: Ptr)

  /** The child a search for `k` moves to. */
  function Next(n: Node, k: int): Ptr {
    if k < n.key then n.left else n.right
  }

  /** A search for `k` from `p` ends with `r` after at most `fuel` moves, and
      stands on allocated nodes only. */
  ghost predicate SearchIn(h: Heap, p: Ptr, k: int, fuel: nat, r: Answer)
    decreases fuel
  {
    if p == NULL then r == None
    else
      && p in h
      && if h[p].key == k then r == Some(h[p].value)
         else fuel > 0 && SearchIn(h, Next(h[p], k), k, fuel - 1, r)
  }

  /** What an undisturbed search for `k` from `p` answers. */
  ghost predicate Answers(h: Heap, p: Ptr, k: int, r: Answer) {
    exists fuel: nat :: SearchIn(h, p, k, fuel, r)
  }

  lemma {:induction false} SearchUnique(h: Heap, p: Ptr, k: int, f1: nat, r1: Answer, f2: nat, r2: Answer)
    requires SearchIn(h, p, k, f1, r1) && SearchIn(h, p, k, f2, r2)
    ensures r1 == r2
    decreases f1
  {
    if p != NULL && h[p].key != k {
      SearchUnique(h, Next(h[p], k), k, f1 - 1, r1, f2 - 1, r2);
    }
  }

  lemma AnswersUnique(h: Heap, p: Ptr, k: int, r1: Answer, r2: Answer)
    requires Answers(h, p, k, r1) && Answers(h, p, k, r2)
    ensures r1 == r2
  {
    var f1: nat :| SearchIn(h, p, k, f1, r1);
    var f2: nat :| SearchIn(h, p, k, f2, r2);
    SearchUnique(h, p, k, f1, r1, f2, r2);
  }

  lemma AnswersHere(h: Heap, p: Ptr, k: int)
    ensures p == NULL ==> Answers(h, p, k, None)
    ensures p != NULL && p in h && h[p].key == k ==> Answers(h, p, k, Some(h[p].value))
  {
    if p == NULL {
      assert SearchIn(h, p, k, 0, None);
    } else if p in h && h[p].key == k {
      assert SearchIn(h, p, k, 0, Some(h[p].value));
    }
  }

  lemma AnswersStep(h: Heap, p: Ptr, k: int, r: Answer)
    requires p != NULL && p in h && h[p].key != k
    ensures Answers(h, p, k, r) <==> Answers(h, Next(h[p], k), k, r)
  {
    if Answers(h, Next(h[p], k), k, r) {
      var f: nat :| SearchIn(h, Next(h[p], k), k, f, r);
      assert SearchIn(h, p, k, f + 1, r);
    }
    if Answers(h, p, k, r) {
      var f: nat :| SearchIn(h, p, k, f, r);
      assert SearchIn(h, Next(h[p], k), k, f - 1, r);
    }
  }

  /** A search from `p` for `k` walks exactly over `via` and then stands on `c`. */
  ghost predicate Path(h: Heap, p: Ptr, k: int, via: seq<Ptr>, c: Ptr)
    decreases via
  {
    if via == [] then p == c
    else
      && p == via[0] && p != NULL && p in h && h[p].key != k
      && Path(h, Next(h[p], k), k, via[1..], c)
  }

  lemma {:induction false} PathExtend(h: Heap, p: Ptr, k: int, via: seq<Ptr>, c: Ptr)
    requires Path(h, p, k, via, c)
    requires c != NULL && c in h && h[c].key != k
    ensures Path(h, p, k, via + [c], Next(h[c], k))
    decreases via
  {
    if via == [] {
      assert via + [c] == [c] && [c][1..] == [];
    } else {
      PathExtend(h, Next(h[p], k), k, via[1..], c);
      assert (via + [c])[1..] == via[1..] + [c];
    }
  }

  /** Same links and same key at a node, the size field aside. */
  predicate SameLinks(n: Node, n': Node) {
    n.left == n'.left && n.right == n'.right && n.key == n'.key && n.value == n'.value
  }

  lemma {:induction false} PathKept(h: Heap, h': Heap, p: Ptr, k: int, via: seq<Ptr>, c: Ptr)
    requires Path(h, p, k, via, c)
    requires forall x :: x in via && x in h ==> x in h' && SameLinks(h[x], h'[x])
    ensures Path(h', p, k, via, c)
    decreases via
  {
    if via != [] {
      assert via[0] in via;
      PathKept(h, h', Next(h[p], k), k, via[1..], c);
    }
  }

  lemma {:induction false} PathAnswers(h: Heap, p: Ptr, k: int, via: seq<Ptr>, c: Ptr, r: Answer)
    requires Path(h, p, k, via, c)
    ensures Answers(h, c, k, r) <==> Answers(h, p, k, r)
    decreases via
  {
    if via != [] {
      AnswersStep(h, p, k, r);
      PathAnswers(h, Next(h[p], k), k, via[1..], c, r);
    }
  }

  // ---- one store --------------------------------------------------------

  /** What one step of an operation on key `k`, whose final answer for `k` is
      `target`, may do to the answers: every node that had an answer keeps it;
      only for `k` itself may it move, and then it moves to `target` at a
      moment when the root answers `target` as well.  The same holds for the
      root, which may itself be replaced. */
  ghost predicate Keeps(m: Mem, m': Mem, k: int, target: Answer) {
    && m.heap.Keys <= m'.heap.Keys
    && (forall q, j, r :: Answers(m.heap, q, j, r) ==>
          Answers(m'.heap, q, j, r) || (j == k && Arrived(m', q, k, target)))
    && (forall j, r :: Answers(m.heap, m.root, j, r) ==>
          Answers(m'.heap, m'.root, j, r) || (j == k && Arrived(m', m'.root, k, target)))
  }

  ghost predicate Arrived(m: Mem, q: Ptr, k: int, target: Answer) {
    Answers(m.heap, q, k, target) && Answers(m.heap, m.root, k, target)
  }

  lemma KeepsRefl(m: Mem, k: int, target: Answer)
    ensures Keeps(m, m, k, target)
  {
  }

  lemma KeepsTrans(a: Mem, b: Mem, c: Mem, k: int, target: Answer)
    requires Keeps(a, b, k, target) && Keeps(b, c, k, target)
    ensures Keeps(a, c, k, target)
  {
    forall q, j, r | Answers(a.heap, q, j, r)
      ensures Answers(c.heap, q, j, r) || (j == k && Arrived(c, q, k, target))
    {
      if !Answers(b.heap, q, j, r) {
        assert Arrived(b, q, k, target);
        assert Answers(c.heap, q, k, target);
        assert Answers(c.heap, c.root, k, target);
      }
    }
    forall j, r | Answers(a.heap, a.root, j, r)
      ensures Answers(c.heap, c.root, j, r) || (j == k && Arrived(c, c.root, k, target))
    {
      if !Answers(b.heap, b.root, j, r) {
        assert Arrived(b, b.root, k, target);
        assert Answers(c.heap, c.root, k, target);
      }
    }
  }

  /** A store at `c` reaches a search only through `c`: the search either keeps
      its answer or now gives whatever `c` gives. */
  lemma {:induction false} StoreEffect(h: Heap, c: Ptr, n: Node, q: Ptr, k: int, fuel: nat, r: Answer, rc: Answer)
    requires c != NULL && c in h && h[c].key == n.key && h[c].value == n.value
    requires SearchIn(h, q, k, fuel, r)
    requires Answers(h[c := n], c, k, rc)
    ensures Answers(h[c := n], q, k, r) || (Answers(h[c := n], q, k, rc) && Answers(h, c, k, r))
    decreases fuel
  {
    var h' := h[c := n];
    AnswersHere(h', q, k);
    if q == c {
    } else if q != NULL && h[q].key != k {
      StoreEffect(h, c, n, Next(h[q], k), k, fuel - 1, r, rc);
      AnswersStep(h', q, k, r);
      AnswersStep(h', q, k, rc);
    }
  }

  /** New memory at an address no search could be standing on. */
  lemma {:induction false} GrowEffect(h: Heap, c: Ptr, n: Node, q: Ptr, k: int, fuel: nat, r: Answer)
    requires c !in h && SearchIn(h, q, k, fuel, r)
    ensures SearchIn(h[c := n], q, k, fuel, r)
    decreases fuel
  {
    if q != NULL && h[q].key != k {
      GrowEffect(h, c, n, Next(h[q], k), k, fuel - 1, r);
    }
  }

  lemma GrowKeeps(m: Mem, c: Ptr, n: Node, k: int, target: Answer)
    requires c !in m.heap
    ensures Keeps(m, m.(heap := m.heap[c := n]), k, target)
  {
    var h' := m.heap[c := n];
    forall q, j, r | Answers(m.heap, q, j, r)
      ensures Answers(h', q, j, r)
    {
      var f: nat :| SearchIn(m.heap, q, j, f, r);
      GrowEffect(m.heap, c, n, q, j, f, r);
    }
  }

  lemma {:induction false} SizeEffect(h: Heap, c: Ptr, n: Node, q: Ptr, k: int, fuel: nat, r: Answer)
    requires c in h && SameLinks(h[c], n) && SearchIn(h, q, k, fuel, r)
    ensures SearchIn(h[c := n], q, k, fuel, r)
    decreases fuel
  {
    if q != NULL && h[q].key != k {
      SizeEffect(h, c, n, Next(h[q], k), k, fuel - 1, r);
    }
  }

  /** The size field is never in a reader's read set. */
  lemma SizeKeeps(m: Mem, c: Ptr, n: Node, k: int, target: Answer)
    requires c in m.heap && SameLinks(m.heap[c], n)
    ensures Keeps(m, m.(heap := m.heap[c := n]), k, target)
  {
    var h' := m.heap[c := n];
    forall q, j, r | Answers(m.heap, q, j, r)
      ensures Answers(h', q, j, r)
    {
      var f: nat :| SearchIn(m.heap, q, j, f, r);
      SizeEffect(m.heap, c, n, q, j, f, r);
    }
  }

  /** A pointer store at a node `c` that a search for `k` from the root stands
      on: allowed when `c` answers as before, or `target` for `k`. */
  lemma StoreKeeps(m: Mem, c: Ptr, n: Node, k: int, target: Answer, via: seq<Ptr>, look: int -> Answer)
    requires c != NULL && c in m.heap && m.heap[c].key == n.key && m.heap[c].value == n.value
    requires Path(m.heap, m.root, k, via, c) && c !in via
    requires forall j :: Answers(m.heap[c := n], c, j, look(j))
    requires forall j :: Answers(m.heap, c, j, look(j)) || (j == k && look(j) == target)
    ensures Keeps(m, m.(heap := m.heap[c := n]), k, target)
  {
    var h' := m.heap[c := n];
    var m' := m.(heap := h');
    PathKept(m.heap, h', m.root, k, via, c);
    PathAnswers(h', m.root, k, via, c, look(k));
    forall q, j, r | Answers(m.heap, q, j, r)
      ensures Answers(h', q, j, r) || (j == k && Arrived(m', q, k, target))
    {
      var f: nat :| SearchIn(m.heap, q, j, f, r);
      StoreEffect(m.heap, c, n, q, j, f, r, look(j));
      if !Answers(h', q, j, r) {
        if Answers(m.heap, c, j, look(j)) {
          AnswersUnique(m.heap, c, j, r, look(j));
        }
      }
    }
  }
}
