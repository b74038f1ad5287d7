/** The tree a pointer stands for: its shape, order, map meaning and sizes. */
module TreeShape {
  import opened Common
  import opened NodeHeap

  datatype Tree = Nil | Bin(ptr: Ptr, key: int, value: int, l: Tree, r: Tree)

  function Count(t: Tree): nat {
    if t.Nil? then 0 else 1 + Count(t.l) + Count(t.r)
  }

  /** The longest way down. */
  function Height(t: Tree): nat {
    if t.Nil? then 0 else 1 + if Height(t.l) > Height(t.r) then Height(t.l) else Height(t.r)
  }

  /** The addresses of a tree's nodes, with multiplicity. */
  function Ptrs(t: Tree): multiset<Ptr> {
    if t.Nil? then multiset{} else multiset{t.ptr} + Ptrs(t.l) + Ptrs(t.r)
  }

  function Keys(t: Tree): set<int> {
    if t.Nil? then {} else {t.key} + Keys(t.l) + Keys(t.r)
  }

  function Look(t: Tree, k: int): Answer {
    if t.Nil? then None
    else if t.key == k then Some(t.value)
    else if k < t.key then Look(t.l, k) else Look(t.r, k)
  }

  ghost predicate Bst(t: Tree) {
    t.Bin? ==> Bst(t.l) && Bst(t.r) && Splits(t.l, t.key, t.r)
  }

  /** `k` separates the keys of `l` from those of `r`. */
  ghost predicate Splits(l: Tree, k: int, r: Tree) {
    && (forall x :: x in Keys(l) ==> x < k)
    && (forall x :: x in Keys(r) ==> k < x)
  }

  /** In memory `h`, `p` points to the tree `t`, with every size field exact. */
  ghost predicate Rep(h: Heap, p: Ptr, t: Tree)
    decreases t
  {
    match t
    case Nil => p == NULL
    case Bin(q, k, v, l, r) =>
      && p == q != NULL && p in h
      && h[p].key == k && h[p].value == v && h[p].size == Count(t)
      && Rep(h, h[p].left, l) && Rep(h, h[p].right, r)
  }

  lemma PtrsBin(t: Tree)
    requires t.Bin?
    ensures Ptrs(t) == multiset{t.ptr} + (Ptrs(t.l) + Ptrs(t.r))
  {
  }

  lemma PtrsMember(t: Tree, x: Ptr)
    requires t.Bin?
    ensures x in Ptrs(t) <==> x == t.ptr || x in Ptrs(t.l) || x in Ptrs(t.r)
  {
  }

  lemma {:induction false} RepIn(h: Heap, p: Ptr, t: Tree)
    requires Rep(h, p, t)
    ensures forall x :: x in Ptrs(t) ==> x in h && x != NULL
    ensures p == NULL <==> t.Nil?
    ensures p != NULL ==> p in Ptrs(t)
    decreases t
  {
    if t.Bin? {
      RepIn(h, h[p].left, t.l);
      RepIn(h, h[p].right, t.r);
    }
  }

  lemma {:induction false} RepFrame(h: Heap, h': Heap, p: Ptr, t: Tree)
    requires Rep(h, p, t)
    requires forall x :: x in Ptrs(t) && x in h ==> x in h' && h'[x] == h[x]
    ensures Rep(h', p, t)
    decreases t
  {
    if t.Bin? {
      forall x ensures x in Ptrs(t) <==> x == t.ptr || x in Ptrs(t.l) || x in Ptrs(t.r) {
        PtrsMember(t, x);
      }
      hide Ptrs;
      RepFrame(h, h', h[p].left, t.l);
      RepFrame(h, h', h[p].right, t.r);
    }
  }

  /** Reading memory agrees with reading the shape, whatever the key. */
  lemma {:induction false} RepAnswers(h: Heap, p: Ptr, t: Tree, k: int)
    requires Rep(h, p, t)
    ensures Answers(h, p, k, Look(t, k))
    decreases t
  {
    AnswersHere(h, p, k);
    if t.Bin? && t.key != k {
      AnswersStep(h, p, k, Look(t, k));
      if k < t.key {
        RepAnswers(h, h[p].left, t.l, k);
      } else {
        RepAnswers(h, h[p].right, t.r, k);
      }
    }
  }

  lemma {:induction false} LookKeys(t: Tree, k: int)
    requires Bst(t)
    ensures Look(t, k).Some? <==> k in Keys(t)
  {
    if t.Bin? {
      LookKeys(t.l, k);
      LookKeys(t.r, k);
    }
  }

  /** `t'` is ordered and stands for the same finite map as the node `k`, `v`
      over `l` and `r`. */
  ghost predicate SameMap(t': Tree, l: Tree, k: int, v: int, r: Tree) {
    && Bst(t')
    && Keys(t') == {k} + Keys(l) + Keys(r)
    && forall j :: Look(t', j) == Look(Bin(NULL, k, v, l, r), j)
  }

  lemma SingleLMap(l: Tree, k: int, v: int, r: Tree, p1: Ptr, p2: Ptr)
    requires Bst(l) && Bst(r) && Splits(l, k, r) && r.Bin?
    ensures SameMap(Bin(p2, r.key, r.value, Bin(p1, k, v, l, r.l), r.r), l, k, v, r)
  {
    assert r.key in Keys(r);
    forall x | x in Keys(r.l) ensures x in Keys(r) {}
    forall x | x in Keys(r.r) ensures x in Keys(r) {}
    forall j ensures Look(Bin(p2, r.key, r.value, Bin(p1, k, v, l, r.l), r.r), j) == Look(Bin(NULL, k, v, l, r), j) {
    }
  }

  /** A child may be exchanged for any tree with the same map. */
  lemma SameMapRight(t': Tree, l: Tree, k: int, v: int, r: Tree, r': Tree)
    requires r.Bin? && SameMap(r', r.l, r.key, r.value, r.r)
    requires SameMap(t', l, k, v, r')
    ensures SameMap(t', l, k, v, r)
  {
    forall j ensures Look(t', j) == Look(Bin(NULL, k, v, l, r), j) {
      assert Look(r', j) == Look(Bin(NULL, r.key, r.value, r.l, r.r), j) == Look(r, j);
      assert Look(t', j) == Look(Bin(NULL, k, v, l, r'), j);
    }
  }

  lemma SameMapLeft(t': Tree, l: Tree, k: int, v: int, r: Tree, l': Tree)
    requires l.Bin? && SameMap(l', l.l, l.key, l.value, l.r)
    requires SameMap(t', l', k, v, r)
    ensures SameMap(t', l, k, v, r)
  {
    forall j ensures Look(t', j) == Look(Bin(NULL, k, v, l, r), j) {
      assert Look(l', j) == Look(Bin(NULL, l.key, l.value, l.l, l.r), j) == Look(l, j);
      assert Look(t', j) == Look(Bin(NULL, k, v, l', r), j);
    }
  }

  /** A double rotation is two single ones. */
  lemma DoubleLMap(l: Tree, k: int, v: int, r: Tree, p1: Ptr, p2: Ptr, p3: Ptr)
    requires Bst(l) && Bst(r) && Splits(l, k, r) && r.Bin? && r.l.Bin?
    ensures SameMap(Bin(p3, r.l.key, r.l.value, Bin(p1, k, v, l, r.l.l), Bin(p2, r.key, r.value, r.l.r, r.r)), l, k, v,
                r)
  {
    var r' := Bin(NULL, r.l.key, r.l.value, r.l.l, Bin(p2, r.key, r.value, r.l.r, r.r));
    SingleRMap(r.l, r.key, r.value, r.r, p2, NULL);
    assert Keys(r') == Keys(r);
    SingleLMap(l, k, v, r', p1, p3);
    SameMapRight(Bin(p3, r'.key, r'.value, Bin(p1, k, v, l, r'.l), r'.r), l, k, v, r, r');
  }

  lemma SingleRMap(l: Tree, k: int, v: int, r: Tree, p1: Ptr, p2: Ptr)
    requires Bst(l) && Bst(r) && Splits(l, k, r) && l.Bin?
    ensures SameMap(Bin(p2, l.key, l.value, l.l, Bin(p1, k, v, l.r, r)), l, k, v, r)
  {
    assert l.key in Keys(l);
    forall x | x in Keys(l.l) ensures x in Keys(l) {}
    forall x | x in Keys(l.r) ensures x in Keys(l) {}
    forall j ensures Look(Bin(p2, l.key, l.value, l.l, Bin(p1, k, v, l.r, r)), j) == Look(Bin(NULL, k, v, l, r), j) {
    }
  }

  lemma DoubleRMap(l: Tree, k: int, v: int, r: Tree, p1: Ptr, p2: Ptr, p3: Ptr)
    requires Bst(l) && Bst(r) && Splits(l, k, r) && l.Bin? && l.r.Bin?
    ensures SameMap(Bin(p3, l.r.key, l.r.value, Bin(p1, l.key, l.value, l.l, l.r.l), Bin(p2, k, v, l.r.r, r)), l, k, v,
                r)
  {
    var l' := Bin(NULL, l.r.key, l.r.value, Bin(p1, l.key, l.value, l.l, l.r.l), l.r.r);
    SingleLMap(l.l, l.key, l.value, l.r, p1, NULL);
    assert Keys(l') == Keys(l);
    SingleRMap(l', k, v, r, p2, p3);
    SameMapLeft(Bin(p3, l'.key, l'.value, l'.l, Bin(p2, k, v, l'.r, r)), l, k, v, r, l');
  }

  /** Number of nodes and number of addresses agree. */
  lemma {:induction false} PtrsCount(t: Tree)
    ensures |Ptrs(t)| == Count(t)
  {
    if t.Bin? {
      PtrsCount(t.l);
      PtrsCount(t.r);
    }
  }

  /** A search in an ordered tree answers from the finite map of the tree. */
  function Contents(t: Tree): map<int, int> {
    map j | j in Keys(t) :: var a := Look(t, j); if a.Some? then a.value else 0
  }

  lemma ContentsLook(t: Tree, k: int)
    requires Bst(t)
    ensures Look(t, k) == if k in Contents(t) then Some(Contents(t)[k]) else None
  {
    LookKeys(t, k);
  }

  lemma {:induction false} KeysCount(t: Tree)
    requires Bst(t)
    ensures |Keys(t)| == Count(t)
  {
    if t.Bin? {
      KeysCount(t.l);
      KeysCount(t.r);
      SizeOfSplit(Keys(t.l), t.key, Keys(t.r));
    }
  }

  lemma SizeOfSplit(a: set<int>, k: int, b: set<int>)
    requires (forall x :: x in a ==> x < k) && (forall x :: x in b ==> k < x)
    ensures |{k} + a + b| == 1 + |a| + |b|
  {
    forall x | x in a ensures x !in b {
      assert x < k;
    }
    assert a !! b;
    assert k !in a + b;
    assert {k} + a + b == {k} + (a + b);
  }
}
