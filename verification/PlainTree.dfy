/** The tree without addresses: what the operations compute, as functions. */
module PlainTree {
  import opened Common
  import opened NodeHeap
  import opened TreeShape

  const WEIGHT: nat := 4

  datatype Plain = Leaf | Fork(l: Plain, key: int, value: int, r: Plain)

  function Size(t: Plain): nat {
    if t.Leaf? then 0 else 1 + Size(t.l) + Size(t.r)
  }

  function Strip(t: Tree): Plain {
    if t.Nil? then Leaf else Fork(Strip(t.l), t.key, t.value, Strip(t.r))
  }

  lemma StripSize(t: Tree)
    ensures Size(Strip(t)) == Count(t)
  {
  }

  /** mkBalancedL: the single rotation if the inner side is the lighter one.
      Otherwise the inner side is no leaf, unless `r` is a single node, and then
      nothing is rotated. */
  function RotateL(l: Plain, k: int, v: int, r: Plain): Plain
    requires r.Fork?
  {
    if Size(r.l) < Size(r.r) || r.l.Leaf? then Fork(Fork(l, k, v, r.l), r.key, r.value, r.r)
    else Fork(Fork(l, k, v, r.l.l), r.l.key, r.l.value, Fork(r.l.r, r.key, r.value, r.r))
  }

  /** mkBalancedR */
  function RotateR(l: Plain, k: int, v: int, r: Plain): Plain
    requires l.Fork?
  {
    if Size(l.r) < Size(l.l) || l.r.Leaf? then Fork(l.l, l.key, l.value, Fork(l.r, k, v, r))
    else Fork(Fork(l.l, l.key, l.value, l.r.l), l.r.key, l.r.value, Fork(l.r.r, k, v, r))
  }

  /** mkBalanced */
  function Balance(l: Plain, k: int, v: int, r: Plain): Plain {
    if Size(l) + Size(r) < 2 then Fork(l, k, v, r)
    else if Size(r) > WEIGHT * Size(l) then RotateL(l, k, v, r)
    else if Size(l) > WEIGHT * Size(r) then RotateR(l, k, v, r)
    else Fork(l, k, v, r)
  }

  /** The decisions in terms of node counts. */
  lemma RotateLIs(l: Tree, k: int, v: int, r: Tree)
    requires r.Bin? && (Count(r.l) < Count(r.r) || r.l.Bin?)
    ensures RotateL(Strip(l), k, v, Strip(r)) ==
            if Count(r.l) < Count(r.r) then Fork(Fork(Strip(l), k, v, Strip(r.l)), r.key, r.value, Strip(r.r))
            else Fork(Fork(Strip(l), k, v, Strip(r.l.l)), r.l.key, r.l.value,
                      Fork(Strip(r.l.r), r.key, r.value, Strip(r.r)))
  {
    StripSize(r.l);
    StripSize(r.r);
  }

  lemma RotateRIs(l: Tree, k: int, v: int, r: Tree)
    requires l.Bin? && (Count(l.r) < Count(l.l) || l.r.Bin?)
    ensures RotateR(Strip(l), k, v, Strip(r)) ==
            if Count(l.r) < Count(l.l) then Fork(Strip(l.l), l.key, l.value, Fork(Strip(l.r), k, v, Strip(r)))
            else Fork(Fork(Strip(l.l), l.key, l.value, Strip(l.r.l)), l.r.key, l.r.value,
                      Fork(Strip(l.r.r), k, v, Strip(r)))
  {
    StripSize(l.l);
    StripSize(l.r);
  }

  lemma BalanceIs(l: Tree, k: int, v: int, r: Tree)
    ensures Strip(r).Fork? == r.Bin? && Strip(l).Fork? == l.Bin?
    ensures Balance(Strip(l), k, v, Strip(r)) ==
            if Count(l) + Count(r) >= 2 && Count(r) > WEIGHT * Count(l) then RotateL(Strip(l), k, v, Strip(r))
            else if Count(l) + Count(r) >= 2 && Count(l) > WEIGHT * Count(r) then RotateR(Strip(l), k, v, Strip(r))
            else Fork(Strip(l), k, v, Strip(r))
  {
    StripSize(l);
    StripSize(r);
  }

  function InsertP(t: Plain, k: int, v: int): Plain {
    if t.Leaf? then Fork(Leaf, k, v, Leaf)
    else if k < t.key then Balance(InsertP(t.l, k, v), t.key, t.value, t.r)
    else if k > t.key then Balance(t.l, t.key, t.value, InsertP(t.r, k, v))
    else t
  }

  /** deleteMin: the tree without its least key, and that key with its value. */
  function WithoutMin(t: Plain): Plain
    requires t.Fork?
  {
    if t.l.Leaf? then t.r else Balance(WithoutMin(t.l), t.key, t.value, t.r)
  }

  function Min(t: Plain): (int, int)
    requires t.Fork?
  {
    if t.l.Leaf? then (t.key, t.value) else Min(t.l)
  }

  function DeleteP(t: Plain, k: int): Plain {
    if t.Leaf? then Leaf
    else if k < t.key then Balance(DeleteP(t.l, k), t.key, t.value, t.r)
    else if k > t.key then Balance(t.l, t.key, t.value, DeleteP(t.r, k))
    else RootGone(t)
  }

  /** The found node leaves. */
  function RootGone(t: Plain): Plain
    requires t.Fork?
  {
    if t.l.Leaf? then t.r
    else if t.r.Leaf? then t.l
    else Balance(t.l, Min(t.r).0, Min(t.r).1, WithoutMin(t.r))
  }

  /** A side over four times the other loses nodes to it, and which key comes to
      the top is decided by the sizes one level down; otherwise nothing moves. */
  lemma BalanceMoves(l: Plain, k: int, v: int, r: Plain)
    ensures var t := Balance(l, k, v, r); var ln, rn := Size(l), Size(r);
      if ln + rn >= 2 && rn > WEIGHT * ln then
        t.Fork? && Size(t.l) > ln && Size(t.r) < rn &&
        t.key == if Size(r.l) < Size(r.r) then r.key else r.l.key
      else if ln + rn >= 2 && ln > WEIGHT * rn then
        t.Fork? && Size(t.l) < ln && Size(t.r) > rn &&
        t.key == if Size(l.r) < Size(l.l) then l.key else l.r.key
      else t == Fork(l, k, v, r)
    ensures Size(Balance(l, k, v, r)) == 1 + Size(l) + Size(r)
  {
    assert r.Fork? ==> Size(r) == 1 + Size(r.l) + Size(r.r);
    assert l.Fork? ==> Size(l) == 1 + Size(l.l) + Size(l.r);
    assert r.Fork? && r.l.Fork? ==> Size(r.l) == 1 + Size(r.l.l) + Size(r.l.r);
    assert l.Fork? && l.r.Fork? ==> Size(l.r) == 1 + Size(l.r.l) + Size(l.r.r);
  }

  /** Three keys in ascending order do not make a list. */
  lemma AscendingThree(a: int, b: int, c: int, u: int, v: int, w: int)
    requires a < b < c
    ensures InsertP(InsertP(InsertP(Leaf, a, u), b, v), c, w) ==
            Fork(Fork(Leaf, a, u, Leaf), b, v, Fork(Leaf, c, w, Leaf))
  {
    var one := Fork(Leaf, a, u, Leaf);
    var two := Fork(Leaf, a, u, Fork(Leaf, b, v, Leaf));
    assert InsertP(Leaf, a, u) == one;
    assert InsertP(one, b, v) == two by {
      assert InsertP(Leaf, b, v) == Fork(Leaf, b, v, Leaf);
    }
    var right := Fork(Leaf, b, v, Fork(Leaf, c, w, Leaf));
    assert InsertP(two.r, c, w) == right by {
      assert InsertP(Leaf, c, w) == Fork(Leaf, c, w, Leaf);
    }
    assert InsertP(two, c, w) == Balance(Leaf, a, u, right);
    assert Size(right.l) == 0 && Size(right.r) == 1 && Size(right) == 2;
  }
}
