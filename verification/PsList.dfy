/** Intrusive circular lists: nodes that carry their own two pointers. */
module PsList {
  type Addr = nat

  /** `next` and `prev` pointers lead around `xs`, in this order, and back. */
  ghost predicate IsRing(n: map<Addr, Addr>, p: map<Addr, Addr>, xs: seq<Addr>) {
    xs != [] && Distinct(xs) &&
    (forall x <- xs :: x in n && x in p) &&
    (forall i :: 0 <= i < |xs| - 1 ==> n[xs[i]] == xs[i + 1]) && n[xs[|xs| - 1]] == xs[0] &&
    (forall i :: 0 < i < |xs| ==> p[xs[i]] == xs[i - 1]) && p[xs[0]] == xs[|xs| - 1]
  }

  ghost predicate Distinct(xs: seq<Addr>) {
    forall i, j :: 0 <= i < j < |xs| ==> xs[i] != xs[j]
  }

  /** The two maps agree on every node outside `xs`. */
  ghost predicate SameOutside(m: map<Addr, Addr>, m': map<Addr, Addr>, xs: set<Addr>) {
    forall x :: x !in xs ==> (x in m <==> x in m') && (x in m ==> m[x] == m'[x])
  }

  function SetOf(xs: seq<Addr>): set<Addr> {
    set x <- xs
  }

  /** A ring may be listed from any of its nodes. */
  lemma Rotate(n: map<Addr, Addr>, p: map<Addr, Addr>, xs: seq<Addr>, k: nat)
    requires IsRing(n, p, xs) && k < |xs|
    ensures IsRing(n, p, xs[k..] + xs[..k])
  {
    var ys := xs[k..] + xs[..k];
    assert forall i :: 0 <= i < |ys| ==> ys[i] == if i < |xs| - k then xs[i + k] else xs[i + k - |xs|];
  }

  /** Rings are not disturbed by writes elsewhere. */
  lemma RingFrame(n: map<Addr, Addr>, p: map<Addr, Addr>, n': map<Addr, Addr>, p': map<Addr, Addr>, xs: seq<Addr>,
      at: set<Addr>)
    requires IsRing(n, p, xs) && SameOutside(n, n', at) && SameOutside(p, p', at)
    requires forall x <- xs :: x !in at
    ensures IsRing(n', p', xs)
  {
  }

  /** The four stores of an insertion after the last node. */
  lemma AddLast(n: map<Addr, Addr>, p: map<Addr, Addr>, xs: seq<Addr>, l: Addr, x: Addr)
    requires IsRing(n, p, xs) && l == xs[|xs| - 1] && x !in xs
    ensures IsRing(n[x := n[l]][l := x], p[x := l][n[l] := x], xs + [x])
  {
    var ys := xs + [x];
    assert xs[0] in xs && l in xs;
    assert forall y <- ys :: y in xs || y == x;
    assert forall i :: 0 <= i < |xs| ==> ys[i] == xs[i] && xs[i] in xs;
  }

  /** The four stores of a removal of the first node. */
  lemma RemFirst(n: map<Addr, Addr>, p: map<Addr, Addr>, xs: seq<Addr>, l: Addr)
    requires IsRing(n, p, xs) && l == xs[0]
    ensures n[l] in n && p[l] in p
    ensures var p1 := p[n[l] := p[l]]; var n1 := n[p1[l] := n[l]]; var p' := p1[l := l]; var n' := n1[l := l];
            IsRing(n', p', [l]) && (|xs| > 1 ==> IsRing(n', p', xs[1..]))
  {
    var ys := xs[1..];
    assert n[l] in xs && p[l] in xs by {
      if |xs| > 1 { assert n[l] == xs[1]; }
    }
    assert forall i :: 0 <= i < |ys| ==> ys[i] == xs[i + 1] && ys[i] in xs;
    assert l !in ys;
  }

  /** A ring may be listed so that its first node comes last, and back. */
  lemma FirstLast(n: map<Addr, Addr>, p: map<Addr, Addr>, xs: seq<Addr>)
    requires IsRing(n, p, xs)
    ensures IsRing(n, p, xs[1..] + [xs[0]])
  {
  }

  lemma LastFirst(n: map<Addr, Addr>, p: map<Addr, Addr>, xs: seq<Addr>, x: Addr)
    requires IsRing(n, p, xs + [x])
    ensures IsRing(n, p, [x] + xs)
  {
    var ys := xs + [x];
    Rotate(n, p, ys, |xs|);
    assert ys[|xs|..] + ys[..|xs|] == [x] + xs;
  }

  lemma RotateBack(n: map<Addr, Addr>, p: map<Addr, Addr>, xs: seq<Addr>, k: nat)
    requires k < |xs| && |xs| > 1 && IsRing(n, p, xs[k + 1..] + xs[..k])
    ensures IsRing(n, p, Without(xs, k))
  {
    hide IsRing;
    var ys := xs[k + 1..] + xs[..k];
    var m := |xs| - k - 1;
    if m < |ys| {
      Rotate(n, p, ys, m);
      assert ys[m..] + ys[..m] == Without(xs, k);
    } else {
      assert ys == Without(xs, k);
    }
  }

  lemma NextOf(n: map<Addr, Addr>, p: map<Addr, Addr>, xs: seq<Addr>, k: nat)
    requires IsRing(n, p, xs) && k < |xs|
    ensures xs[k] in xs && xs[k] in n && n[xs[k]] == xs[if k == |xs| - 1 then 0 else k + 1]
  {
  }

  lemma Turned(xs: seq<Addr>)
    requires xs != []
    ensures forall y :: y in xs[1..] + [xs[0]] <==> y in xs
  {
  }

  lemma SetsOfTurned(ys: seq<Addr>, xs: seq<Addr>, s: Addr)
    requires forall y :: y in ys <==> y in xs
    ensures SetOf(ys + [s]) == SetOf(xs + [s])
  {
  }

  lemma SetOfRotated(xs: seq<Addr>, k: nat)
    requires k <= |xs|
    ensures SetOf(xs[k..] + xs[..k]) == SetOf(xs)
  {
  }

  lemma Unchanged(m: map<Addr, Addr>, at: set<Addr>)
    ensures SameOutside(m, m, at)
  {
  }

  class LinkMemory {
    var n: map<Addr, Addr>
    var p: map<Addr, Addr>

    ghost predicate Ring(xs: seq<Addr>) reads this {
      IsRing(n, p, xs)
    }

    constructor ()
      ensures n == map[] && p == map[]
    {
      n, p := map[], map[];
    }

    /** ps_list_ll_init: a ring of one. */
    method Init(l: Addr)
      modifies this
      ensures Ring([l])
      ensures n == old(n)[l := l] && p == old(p)[l := l]
    {
      n := n[l := l];
      p := p[l := l];
    }

    /** ps_list_ll_empty */
    method Singleton(l: Addr, ghost xs: seq<Addr>) returns (b: bool)
      requires Ring(xs) && l in xs
      ensures b <==> |xs| == 1
    {
      ghost var k :| 0 <= k < |xs| && xs[k] == l;
      assert k < |xs| - 1 ==> n[l] == xs[k + 1];
      b := n[l] == l;
    }

    /** ps_list_ll_add: `x` joins the ring right after its last node `l`. */
    method Add(l: Addr, x: Addr, ghost xs: seq<Addr>)
      requires Ring(xs) && l == xs[|xs| - 1] && x !in xs
      modifies this
      ensures Ring(xs + [x])
      ensures SameOutside(old(n), n, SetOf(xs + [x])) && SameOutside(old(p), p, SetOf(xs + [x]))
    {
      AddLast(n, p, xs, l, x);
      assert l in xs && x in xs + [x] && xs[0] in xs;
      n := n[x := n[l]];
      p := p[x := l];
      n := n[l := x];
      p := p[n[x] := x];
    }

    /** ps_list_ll_rem: the first node leaves the ring and is a ring by itself. */
    method Rem(l: Addr, ghost xs: seq<Addr>)
      requires Ring(xs) && l == xs[0]
      modifies this
      ensures Ring([l])
      ensures |xs| > 1 ==> Ring(xs[1..])
      ensures SameOutside(old(n), n, SetOf(xs)) && SameOutside(old(p), p, SetOf(xs))
    {
      RemFirst(n, p, xs, l);
      assert n[l] in xs && p[l] in xs by {
        if |xs| > 1 { assert n[l] == xs[1]; }
      }
      p := p[n[l] := p[l]];
      n := n[p[l] := n[l]];
      p := p[l := l];
      n := n[l := l];
    }
  }

  /** `xs` without its `k`-th node. */
  function Without(xs: seq<Addr>, k: nat): seq<Addr>
    requires k < |xs|
  {
    xs[..k] + xs[k + 1..]
  }

  /** A list of slabs: a pointer to some node of a ring, or NULL.  `xs` lists the
      ring from that node on. */
  ghost predicate Heads(list: Addr, n: map<Addr, Addr>, p: map<Addr, Addr>, xs: seq<Addr>) {
    0 !in xs && if xs == [] then list == 0 else list == xs[0] && IsRing(n, p, xs)
  }

  lemma InitKeepsHeads(list: Addr, n: map<Addr, Addr>, p: map<Addr, Addr>, xs: seq<Addr>, s: Addr)
    requires Heads(list, n, p, xs) && s !in xs
    ensures Heads(list, n[s := s], p[s := s], xs)
  {
  }

  lemma HeadsFrame(list: Addr, n: map<Addr, Addr>, p: map<Addr, Addr>, n': map<Addr, Addr>, p': map<Addr, Addr>,
      xs: seq<Addr>, at: set<Addr>)
    requires Heads(list, n, p, xs) && SameOutside(n, n', at) && SameOutside(p, p', at) && SetOf(xs) !! at
    ensures Heads(list, n', p', xs)
  {
  }

  lemma AddedSet(xs: seq<Addr>, s: Addr)
    ensures Added(xs, s) != [] && Added(xs, s)[0] == s
    ensures SetOf(Added(xs, s)) == SetOf(xs) + {s} && SetOf(xs + [s]) == SetOf(xs) + {s}
  {
  }

  lemma WithoutSet(xs: seq<Addr>, k: nat)
    requires Distinct(xs) && k < |xs|
    ensures SetOf(Without(xs, k)) == SetOf(xs) - {xs[k]}
  {
  }

  lemma HeadIn(list: Addr, n: map<Addr, Addr>, p: map<Addr, Addr>, xs: seq<Addr>)
    requires Heads(list, n, p, xs)
    ensures if list == 0 then xs == [] else xs != [] && xs[0] == list && list in xs
  {
  }

  lemma IsDistinct(list: Addr, n: map<Addr, Addr>, p: map<Addr, Addr>, xs: seq<Addr>)
    requires Heads(list, n, p, xs)
    ensures Distinct(xs)
  {
  }

  lemma RingDistinct(n: map<Addr, Addr>, p: map<Addr, Addr>, xs: seq<Addr>)
    requires IsRing(n, p, xs)
    ensures Distinct(xs)
  {
  }

  lemma HeadsRing(list: Addr, n: map<Addr, Addr>, p: map<Addr, Addr>, xs: seq<Addr>)
    requires Heads(list, n, p, xs) && xs != []
    ensures IsRing(n, p, xs) && list == xs[0] && 0 !in xs && Distinct(xs)
  {
  }

  lemma RemHolds(list: Addr, n: map<Addr, Addr>, p: map<Addr, Addr>, xs: seq<Addr>, k: nat)
    requires k < |xs| && 0 !in xs && Distinct(xs) && (|xs| > 1 ==> IsRing(n, p, Without(xs, k)))
    requires list == if xs[0] != xs[k] then xs[0] else if |xs| == 1 then 0 else xs[if k == |xs| - 1 then 0 else k + 1]
    ensures Heads(list, n, p, Without(xs, k))
  {
  }

  class Freelist {
    var list: Addr

    constructor ()
      ensures list == 0
    {
      list := 0;
    }

    ghost predicate Holds(links: LinkMemory, xs: seq<Addr>) reads this, links {
      Heads(list, links.n, links.p, xs)
    }

    /** __slab_freelist_add: `s` becomes the first of the list. */
    method Add(links: LinkMemory, s: Addr, ghost xs: seq<Addr>)
      requires Holds(links, xs) && links.Ring([s]) && s != 0 && s !in xs
      modifies this, links
      ensures list == s && Holds(links, Added(xs, s))
      ensures SameOutside(old(links.n), links.n, SetOf(xs + [s])) && SameOutside(old(links.p), links.p, SetOf(xs + [s]))
    {
      hide IsRing, Distinct, SameOutside;
      if list != 0 {
        FirstLast(links.n, links.p, xs);
        ghost var ys := xs[1..] + [xs[0]];
        Turned(xs);
        links.Add(list, s, ys);
        LastFirst(links.n, links.p, ys, s);
        assert [s] + ys == Added(xs, s);
        SetsOfTurned(ys, xs, s);
      } else {
        Unchanged(links.n, SetOf(xs + [s]));
        Unchanged(links.p, SetOf(xs + [s]));
      }
      list := s;
    }

    /** __slab_freelist_rem: `s` leaves its ring, and the list moves on when it
        started at `s`.  Nothing checks that `s` is on this list: `xs` is the ring
        it is on. */
    method Rem(links: LinkMemory, s: Addr, ghost xs: seq<Addr>, ghost k: nat)
      requires links.Ring(xs) && k < |xs| && xs[k] == s
      modifies this, links
      ensures links.Ring([s])
      ensures |xs| > 1 ==> links.Ring(Without(xs, k))
      ensures list == if old(list) != s then old(list) else if |xs| == 1 then 0
                  else xs[if k == |xs| - 1 then 0 else k + 1]
      ensures SameOutside(old(links.n), links.n, SetOf(xs)) && SameOutside(old(links.p), links.p, SetOf(xs))
    {
      hide Distinct, SameOutside;
      if list == s {
        NextOf(links.n, links.p, xs, k);
        var single := links.Singleton(s, xs);
        list := if single then 0 else links.n[s];
      }
      hide IsRing;
      Rotate(links.n, links.p, xs, k);
      ghost var ys := xs[k..] + xs[..k];
      assert ys[1..] == xs[k + 1..] + xs[..k];
      SetOfRotated(xs, k);
      links.Rem(s, ys);
      if |xs| > 1 {
        RotateBack(links.n, links.p, xs, k);
      }
    }
  }

  /** The list from its new first node on, once `s` has been added. */
  function Added(xs: seq<Addr>, s: Addr): seq<Addr> {
    if xs == [] then [s] else [s] + xs[1..] + [xs[0]]
  }
}
