/** Slabs owned by cores.  An object freed by another core is queued for its
    owner, which takes such queues over from time to time. */
module PsSlab {
  import opened Common
  import opened PsList
  import opened SlabMemory

  /** Where an object that is not free stands: with the program, in the remote
      queue of its owner for one locality, or on the list its owner has detached
      and is working through. */
  datatype Place = Held | Queued(core: nat, locality: nat) | Draining(core: nat)

  /** `next` pointers lead from `first` through `xs` to NULL. */
  ghost predicate Leads(heads: map<Addr, MHead>, first: Addr, xs: seq<Addr>) {
    Linked(heads, first, xs) && 0 !in xs && if xs == [] then first == 0 else heads[xs[|xs| - 1]].next == 0
  }

  /** And they meet no object twice. */
  ghost predicate Chained(heads: map<Addr, MHead>, first: Addr, xs: seq<Addr>) {
    Leads(heads, first, xs) && Distinct(xs)
  }

  /** Every object out of its slab has exactly one place; the queues and detached
      lists hold exactly the objects placed there, all of them their core's own. */
  ghost predicate Placed(heads: map<Addr, MHead>, slabs: map<Addr, Slab>, place: map<Addr, Place>,
      first: map<Place, Addr>, lists: map<Place, seq<Addr>>) {
    lists.Keys == first.Keys && Held !in lists &&
    (forall h <- place :: h in heads && h != 0 && heads[h].slab in slabs && heads[h].tag == 0) &&
    (forall h <- place :: if place[h].Held? then heads[h].next == 0 else place[h] in lists && h in lists[place[h]]) &&
    (forall p <- lists :: Chained(heads, first[p], lists[p])) &&
    forall p <- lists, h <- lists[p] :: h in place && place[h] == p && slabs[heads[h].slab].owner == p.core
  }

  /** Headers in use and the owners of their slabs are untouched, except `h`. */
  ghost predicate Untouched(heads: map<Addr, MHead>, slabs: map<Addr, Slab>, heads': map<Addr, MHead>,
      slabs': map<Addr, Slab>, place: map<Addr, Place>, h: Addr) {
    forall x <- place :: x in heads && heads[x].slab in slabs &&
      (x != h ==>
         x in heads' && heads'[x] == heads[x] &&
         heads[x].slab in slabs' && slabs'[heads[x].slab].owner == slabs[heads[x].slab].owner)
  }

  lemma ChainedFrame(heads: map<Addr, MHead>, heads': map<Addr, MHead>, first: Addr, xs: seq<Addr>)
    requires Chained(heads, first, xs) && forall x <- xs :: x in heads' && (x in heads ==> heads'[x] == heads[x])
    ensures Chained(heads', first, xs)
  {
  }

  /** The program returns an object it held to its slab. */
  lemma PlacedLess(heads: map<Addr, MHead>, slabs: map<Addr, Slab>, heads': map<Addr, MHead>, slabs': map<Addr, Slab>,
      place: map<Addr, Place>, first: map<Place, Addr>, lists: map<Place, seq<Addr>>, h: Addr)
    requires Placed(heads, slabs, place, first, lists) && Untouched(heads, slabs, heads', slabs', place, h)
    requires h in place && place[h].Held?
    ensures Placed(heads', slabs', place - {h}, first, lists)
  {
    hide Chained;
    forall p <- lists ensures Chained(heads', first[p], lists[p]) { ChainedFrame(heads, heads', first[p], lists[p]); }
  }

  lemma PlacedSame(heads: map<Addr, MHead>, slabs: map<Addr, Slab>, heads': map<Addr, MHead>, slabs': map<Addr, Slab>,
      place: map<Addr, Place>, first: map<Place, Addr>, lists: map<Place, seq<Addr>>)
    requires Placed(heads, slabs, place, first, lists) && Untouched(heads, slabs, heads', slabs', place, 0)
    ensures Placed(heads', slabs', place, first, lists)
  {
    hide Chained;
    forall p <- lists ensures Chained(heads', first[p], lists[p]) { ChainedFrame(heads, heads', first[p], lists[p]); }
  }

  /** The program is given an object. */
  lemma PlacedMore(heads: map<Addr, MHead>, slabs: map<Addr, Slab>, heads': map<Addr, MHead>, slabs': map<Addr, Slab>,
      place: map<Addr, Place>, first: map<Place, Addr>, lists: map<Place, seq<Addr>>, h: Addr)
    requires Placed(heads, slabs, place, first, lists) && Untouched(heads, slabs, heads', slabs', place, h)
    requires h !in place && h != 0 && h in heads' && heads'[h].slab in slabs' && heads'[h].next == 0
    requires heads'[h].tag == 0
    ensures Placed(heads', slabs', place[h := Held], first, lists)
  {
    hide Chained;
    forall p <- lists ensures Chained(heads', first[p], lists[p]) { ChainedFrame(heads, heads', first[p], lists[p]); }
  }

  /** An object joins the end of a list. */
  lemma ChainedAppend(heads: map<Addr, MHead>, first: Addr, xs: seq<Addr>, h: Addr)
    requires Chained(heads, first, xs) && h in heads && heads[h].next == 0 && h !in xs && h != 0
    ensures xs == [] ==> Chained(heads, h, xs + [h])
    ensures xs != [] ==>
              xs[|xs| - 1] in heads && Chained(heads[xs[|xs| - 1] := heads[xs[|xs| - 1]].(next := h)], first, xs + [h])
  {
  }

  /** The memory after __ps_qsc_enqueue. */
  function Enqueued(heads: map<Addr, MHead>, tail: Addr, h: Addr): map<Addr, MHead> {
    if tail == 0 || tail !in heads then heads else heads[tail := heads[tail].(next := h)]
  }

  lemma PlacedQueued(heads: map<Addr, MHead>, slabs: map<Addr, Slab>, place: map<Addr, Place>, first: map<Place, Addr>,
      lists: map<Place, seq<Addr>>, h: Addr, p: Place, tail: Addr)
    requires Placed(heads, slabs, place, first, lists) && p in lists
    requires h in place && place[h].Held? && slabs[heads[h].slab].owner == p.core
    requires tail == LastOf(lists[p])
    ensures Placed(Enqueued(heads, tail, h), slabs, place[h := p], if tail == 0 then first[p := h] else first,
                lists[p := lists[p] + [h]])
  {
    hide Chained, Leads, Linked;
    var heads' := Enqueued(heads, tail, h);
    var lists' := lists[p := lists[p] + [h]];
    var first' := if tail == 0 then first[p := h] else first;
    ChainedKnows(heads, first[p], lists[p]);
    ChainedAppend(heads, first[p], lists[p], h);
    forall q <- lists | q != p
      ensures Chained(heads', first'[q], lists'[q])
    { ChainedFrame(heads, heads', first[q], lists[q]); }
    assert Chained(heads', first'[p], lists'[p]);
    assert lists[p] != [] ==> tail in lists[p];
  }

  lemma ChainedKnows(heads: map<Addr, MHead>, first: Addr, xs: seq<Addr>)
    requires Chained(heads, first, xs)
    ensures 0 !in xs && (forall x <- xs :: x in heads) && (xs == [] <==> first == 0) && (xs != [] ==> first == xs[0])
  {
  }

  /** A whole list changes its place. */
  function Moved(place: map<Addr, Place>, xs: seq<Addr>, d: Place): map<Addr, Place> {
    map h | h in place :: if h in xs then d else place[h]
  }

  lemma PlacedDetached(heads: map<Addr, MHead>, slabs: map<Addr, Slab>, place: map<Addr, Place>,
      first: map<Place, Addr>, lists: map<Place, seq<Addr>>, p: Place, d: Place)
    requires Placed(heads, slabs, place, first, lists) && p in lists && d in lists && p != d && lists[d] == []
    requires p.Queued? && d.Draining? && p.core == d.core
    ensures Placed(heads, slabs, Moved(place, lists[p], d), first[d := first[p]][p := 0], lists[d := lists[p]][p := []])
  {
    hide Chained, Leads, Linked;
    var place' := Moved(place, lists[p], d);
    var first' := first[d := first[p]][p := 0];
    var lists' := lists[d := lists[p]][p := []];
    NoneChained(heads);
    forall q <- lists' ensures Chained(heads, first'[q], lists'[q]) {
      assert q == p || q == d || (first'[q] == first[q] && lists'[q] == lists[q]);
    }
    forall q <- lists', h <- lists'[q] ensures h in place' && place'[h] == q && slabs[heads[h].slab].owner == q.core {
      if q != d {
        assert lists'[q] == lists[q] && q != p;
      }
    }
    forall h <- place'
      ensures if place'[h].Held? then heads[h].next == 0 else place'[h] in lists' && h in lists'[place'[h]]
    {
      if h !in lists[p] {
        assert place[h] != p && place[h] != d;
      }
    }
  }

  lemma PlacedKnows(heads: map<Addr, MHead>, slabs: map<Addr, Slab>, place: map<Addr, Place>, first: map<Place, Addr>,
      lists: map<Place, seq<Addr>>, p: Place)
    requires Placed(heads, slabs, place, first, lists) && p in lists
    ensures !p.Held? && p in first && (lists[p] == [] <==> first[p] == 0)
    ensures (lists[p] != [] ==> first[p] == lists[p][0] && lists[p][|lists[p]| - 1] in place)
    ensures forall h <- lists[p] ::
              h in place && place[h] == p && h != 0 && h in heads && heads[h].slab in slabs &&
              slabs[heads[h].slab].owner == p.core
    ensures forall h <- place :: h != 0 && h in heads
  {
  }

  lemma NoneChained(heads: map<Addr, MHead>)
    ensures Chained(heads, 0, [])
  {
  }

  /** The owner takes the first object off its detached list: `n = h->next;
      h->next = NULL`. */
  lemma PlacedPopped(heads: map<Addr, MHead>, slabs: map<Addr, Slab>, place: map<Addr, Place>, first: map<Place, Addr>,
      lists: map<Place, seq<Addr>>, d: Place)
    requires Placed(heads, slabs, place, first, lists) && d in lists && lists[d] != []
    ensures first[d] == lists[d][0] && first[d] in heads && first[d] in place
    ensures var h := first[d];
            Placed(heads[h := heads[h].(next := 0)], slabs, place[h := Held], first[d := heads[h].next],
                lists[d := lists[d][1..]])
  {
    hide Chained, Leads, Linked;
    ChainedKnows(heads, first[d], lists[d]);
    var h := first[d];
    var heads' := heads[h := heads[h].(next := 0)];
    assert lists[d] == [h] + lists[d][1..];
    ChainedPop(heads, first[d], lists[d]);
    forall q <- lists | q != d
      ensures Chained(heads', first[q], lists[q])
    { ChainedFrame(heads, heads', first[q], lists[q]); }
  }

  lemma ChainedPop(heads: map<Addr, MHead>, first: Addr, xs: seq<Addr>)
    requires Chained(heads, first, xs) && xs != []
    ensures first == xs[0] && first in heads && first !in xs[1..]
    ensures Chained(heads[first := heads[first].(next := 0)], heads[first].next, xs[1..])
  {
  }

  // ---- freeing twice ---------------------------------------------------------------------

  /** Two chains from the same node agree as far as the links of the first were
      not written. */
  lemma {:induction false} SamePrefix(heads: map<Addr, MHead>, heads': map<Addr, MHead>, first: Addr, xs: seq<Addr>,
      ys: seq<Addr>, n: nat)
    requires Leads(heads, first, xs) && Leads(heads', first, ys) && n <= |xs|
    requires forall i :: 0 <= i < n - 1 ==> heads'.Keys == heads.Keys && heads'[xs[i]].next == heads[xs[i]].next
    ensures n <= |ys| && forall i :: 0 <= i < n ==> ys[i] == xs[i]
  {
    if n > 1 {
      SamePrefix(heads, heads', first, xs, ys, n - 1);
      assert xs[n - 1] in xs && heads'[ys[n - 2]].next == xs[n - 1];
    } else if n == 1 {
      assert xs[0] in xs;
    }
  }

  /** A chain goes on exactly where the link is not NULL. */
  lemma GoesOn(heads: map<Addr, MHead>, first: Addr, xs: seq<Addr>, n: nat)
    requires Leads(heads, first, xs) && 0 < n <= |xs|
    ensures xs[n - 1] in heads
    ensures if heads[xs[n - 1]].next == 0 then n == |xs| else n < |xs| && xs[n] == heads[xs[n - 1]].next
  {
    assert xs[n - 1] in xs;
    assert n < |xs| ==> xs[n] in xs;
  }

  /** With none of its links written a chain is what it was. */
  lemma SameChain(heads: map<Addr, MHead>, heads': map<Addr, MHead>, first: Addr, xs: seq<Addr>, ys: seq<Addr>)
    requires Leads(heads, first, xs) && Leads(heads', first, ys) && heads'.Keys == heads.Keys
    requires forall x <- xs :: x in heads && heads'[x].next == heads[x].next
    ensures xs == ys
  {
    SamePrefix(heads, heads', first, xs, ys, |xs|);
    if xs != [] {
      GoesOn(heads, first, xs, |xs|);
      GoesOn(heads', first, ys, |xs|);
    }
  }

  /** A list whose last link leads back into it leads round. */
  lemma Circle(heads: map<Addr, MHead>, heads': map<Addr, MHead>, first: Addr, xs: seq<Addr>, ys: seq<Addr>, k: nat)
    requires Leads(heads, first, xs) && Leads(heads', first, ys) && k < |xs| && heads'.Keys == heads.Keys
    requires forall i :: 0 <= i < |xs| - 1 ==> xs[i] in heads && heads'[xs[i]].next == heads[xs[i]].next
    requires xs[|xs| - 1] in heads && heads'[xs[|xs| - 1]].next == xs[k]
    ensures |xs| < |ys| && ys[|xs|] == ys[k]
  {
    SamePrefix(heads, heads', first, xs, ys, |xs|);
    assert xs[k] in xs;
    GoesOn(heads', first, ys, |xs|);
  }

  /** A remote free leaves memory in which every object can have one place only if
      the program held the object: not with the second free of one that is queued
      or detached. */
  lemma QueuedOnce(heads: map<Addr, MHead>, slabs: map<Addr, Slab>, place: map<Addr, Place>, first: map<Place, Addr>,
      lists: map<Place, seq<Addr>>, h: Addr, p: Place,
                   place': map<Addr, Place>, lists': map<Place, seq<Addr>>)
    requires Placed(heads, slabs, place, first, lists) && p in lists && h in place
    requires Placed(Enqueued(heads, LastOf(lists[p]), h), slabs, place', if LastOf(lists[p]) == 0 then first[p := h]
                 else first, lists')
    requires lists'.Keys == lists.Keys && LastOf(lists'[p]) == h
    ensures place[h].Held?
  {
    hide Leads, Linked, Enqueued, LastOf;
    var tail := LastOf(lists[p]);
    var heads' := Enqueued(heads, tail, h);
    var q := place[h];
    ChainedKnows(heads, first[p], lists[p]);
    LastIn(lists[p]);
    LastIn(lists'[p]);
    EnqueuedIs(heads, tail, h);
    if q != p && !q.Held? {
      SameChain(heads, heads', first[q], lists[q], lists'[q]);
    } else if q == p {
      var k :| 0 <= k < |lists[p]| && lists[p][k] == h;
      Circle(heads, heads', first[p], lists[p], lists'[p], k);
    }
  }

  lemma LastIn(xs: seq<Addr>)
    ensures xs == [] ==> LastOf(xs) == 0
    ensures xs != [] ==> LastOf(xs) == xs[|xs| - 1] && LastOf(xs) in xs
  {
  }

  lemma EnqueuedIs(heads: map<Addr, MHead>, tail: Addr, h: Addr)
    ensures Enqueued(heads, tail, h).Keys == heads.Keys
    ensures forall x <- heads :: x != tail ==> Enqueued(heads, tail, h)[x] == heads[x]
    ensures tail != 0 && tail in heads ==> Enqueued(heads, tail, h)[tail].next == h
  {
  }

  /** And so does a free by the owner. */
  lemma FreedOnce(heads: map<Addr, MHead>, slabs: map<Addr, Slab>, place: map<Addr, Place>, first: map<Place, Addr>,
      lists: map<Place, seq<Addr>>, h: Addr, next: Addr,
                  slabs': map<Addr, Slab>, place': map<Addr, Place>, lists': map<Place, seq<Addr>>)
    requires Placed(heads, slabs, place, first, lists) && h in place && h in heads
    requires Placed(heads[h := MHead(heads[h].slab, next, 1)], slabs', place', first, lists')
    ensures place[h].Held?
  {
    hide Placed, Leads, Linked, Distinct;
    PlaceIn(heads, slabs, place, first, lists, h);
    var q := place[h];
    if !q.Held? {
      var xs := lists[q];
      var k :| 0 <= k < |xs| && xs[k] == h;
      var heads' := heads[h := MHead(heads[h].slab, next, 1)];
      PlacedSays(heads, slabs, place, first, lists);
      PlacedSays(heads', slabs', place', first, lists');
      ChainedKnows(heads, first[q], xs);
      BeforeIt(xs, k);
      SamePrefix(heads, heads', first[q], xs, lists'[q], k + 1);
    }
  }

  lemma PlaceIn(heads: map<Addr, MHead>, slabs: map<Addr, Slab>, place: map<Addr, Place>, first: map<Place, Addr>,
      lists: map<Place, seq<Addr>>, h: Addr)
    requires Placed(heads, slabs, place, first, lists) && h in place
    ensures place[h].Held? || (place[h] in lists && h in lists[place[h]])
  {
  }

  lemma PlacedSays(heads: map<Addr, MHead>, slabs: map<Addr, Slab>, place: map<Addr, Place>, first: map<Place, Addr>,
      lists: map<Place, seq<Addr>>)
    requires Placed(heads, slabs, place, first, lists)
    ensures lists.Keys == first.Keys && forall p <- lists :: Chained(heads, first[p], lists[p])
    ensures forall p <- lists, h <- lists[p] :: h in heads && heads[h].tag == 0
  {
  }

  lemma BeforeIt(xs: seq<Addr>, k: nat)
    requires Distinct(xs) && k < |xs|
    ensures forall i :: 0 <= i < k ==> xs[i] != xs[k] && xs[i] in xs
  {
  }

  // ---- the lists of slabs -----------------------------------------------------------------

  /** No slab is on two lists, or on a list and by itself. */
  ghost predicate Separate(flq: seq<seq<Addr>>, lone: set<Addr>) {
    0 !in lone && (forall c :: 0 <= c < |flq| ==> SetOf(flq[c]) !! lone && Distinct(flq[c])) &&
    forall c, d :: 0 <= c < d < |flq| ==> SetOf(flq[c]) !! SetOf(flq[d])
  }

  /** The slab list of every core, and the slabs that are on none. */
  class SlabLists {
    const links: LinkMemory
    const fl: seq<Freelist>
    ghost var flq: seq<seq<Addr>>
    ghost var lone: set<Addr>

    ghost predicate Valid() reads this, links, fl {
      |flq| == |fl| && (forall i, j :: 0 <= i < j < |fl| ==> fl[i] != fl[j]) && Separate(flq, lone) &&
      (forall c :: 0 <= c < |fl| ==> fl[c].Holds(links, flq[c])) &&
      forall s <- lone :: links.Ring([s])
    }

    constructor (cores: nat)
      ensures Valid() && |fl| == cores && lone == {} && fresh(links) && forall f <- fl :: fresh(f)
      ensures forall c :: 0 <= c < cores ==> flq[c] == []
    {
      var ls: seq<Freelist> := [];
      while |ls| < cores
        invariant |ls| <= cores && (forall f <- ls :: fresh(f) && f.list == 0)
        invariant forall i, j :: 0 <= i < j < |ls| ==> ls[i] != ls[j]
      {
        var f := new Freelist();
        ls := ls + [f];
      }
      fl := ls;
      links := new LinkMemory();
      flq := seq(cores, _ => []);
      lone := {};
    }

    /** ps_list_init of a new slab */
    method Init(s: Addr)
      requires Valid() && s != 0 && s !in lone && forall c :: 0 <= c < |flq| ==> s !in flq[c]
      modifies this`lone, links
      ensures Valid() && lone == old(lone) + {s}
    {
      hide IsRing, Distinct;
      forall c | 0 <= c < |fl|
        ensures Heads(fl[c].list, links.n[s := s], links.p[s := s], flq[c]) && s !in SetOf(flq[c])
      {
        InitKeepsHeads(fl[c].list, links.n, links.p, flq[c], s);
      }
      forall x <- lone
        ensures IsRing(links.n[s := s], links.p[s := s], [x])
      { InitKeepsHeads(x, links.n, links.p, [x], s); }
      links.Init(s);
      lone := lone + {s};
    }

    /** __slab_freelist_add */
    method Add(c: nat, s: Addr)
      requires Valid() && c < |fl| && s in lone
      modifies this, links, fl[c]
      ensures Valid() && lone == old(lone) - {s} && |flq| == |old(flq)| && fl[c].list == s
      ensures SetOf(flq[c]) == SetOf(old(flq)[c]) + {s}
      ensures forall d :: 0 <= d < |flq| && d != c ==> flq[d] == old(flq)[d]
    {
      hide IsRing, Distinct, SameOutside, Added, Heads;
      ghost var xs := flq[c];
      SetOfHas(xs);
      AddedSet(xs, s);
      fl[c].Add(links, s, xs);
      forall d | 0 <= d < |fl| && d != c ensures fl[d].Holds(links, flq[d]) {
        HeadsFrame(fl[d].list, old(links.n), old(links.p), links.n, links.p, flq[d], SetOf(xs + [s]));
      }
      forall x <- lone | x != s ensures links.Ring([x]) {
        RingFrame(old(links.n), old(links.p), links.n, links.p, [x], SetOf(xs + [s]));
      }
      HeadIn(fl[c].list, links.n, links.p, Added(xs, s));
      IsDistinct(fl[c].list, links.n, links.p, Added(xs, s));
      flq := flq[c := Added(xs, s)];
      lone := lone - {s};
    }

    /** __slab_freelist_rem of a slab on the list of core `c`.  Of a slab on no list
        it changes nothing. */
    method Rem(c: nat, s: Addr)
      requires Valid() && c < |fl| && (s in flq[c] || s in lone)
      modifies this, links, fl[c]
      ensures Valid() && lone == old(lone) + {s} && |flq| == |old(flq)|
      ensures SetOf(flq[c]) == SetOf(old(flq)[c]) - {s}
      ensures forall d :: 0 <= d < |flq| && d != c ==> flq[d] == old(flq)[d]
    {
      hide IsRing, Distinct, SameOutside, Without, Heads;
      ghost var xs := if s in flq[c] then flq[c] else [s];
      ghost var k :| 0 <= k < |xs| && xs[k] == s;
      forall d | 0 <= d < |fl| ensures forall x :: x in flq[d] <==> x in SetOf(flq[d]) { SetOfHas(flq[d]); }
      HeadIn(fl[c].list, links.n, links.p, flq[c]);
      if s in flq[c] {
        WithoutSet(xs, k);
        HeadsRing(fl[c].list, links.n, links.p, xs);
      }
      fl[c].Rem(links, s, xs, k);
      forall d | 0 <= d < |fl| && (d != c || s !in flq[c]) ensures fl[d].Holds(links, flq[d]) {
        HeadsFrame(fl[d].list, old(links.n), old(links.p), links.n, links.p, flq[d], SetOf(xs));
      }
      forall x <- lone | x != s ensures links.Ring([x]) {
        RingFrame(old(links.n), old(links.p), links.n, links.p, [x], SetOf(xs));
      }
      if s in flq[c] {
        RemHolds(fl[c].list, links.n, links.p, xs, k);
        IsDistinct(fl[c].list, links.n, links.p, Without(xs, k));
        flq := flq[c := Without(xs, k)];
        lone := lone + {s};
      }
    }

    lemma FirstOn(c: nat)
      requires Valid() && c < |fl|
      ensures if fl[c].list == 0 then flq[c] == [] else flq[c] != [] && fl[c].list == flq[c][0]
    {
    }

    /** A slab by itself that is given back. */
    ghost method Forget(s: Addr)
      requires Valid()
      modifies this`lone
      ensures Valid() && lone == old(lone) - {s}
    {
      lone := lone - {s};
    }
  }

  lemma SetOfHas(xs: seq<Addr>)
    ensures forall x :: x in xs <==> x in SetOf(xs)
  {
  }

  /** Every slab in use belongs to a core; it is on that core's list when it has a
      free object, and on no list otherwise; the lists hold nothing else. */
  ghost predicate Sorted(slabs: map<Addr, Slab>, used: set<Addr>, flq: seq<seq<Addr>>, lone: set<Addr>) {
    (forall s <- used ::
       s in slabs && s != 0 && slabs[s].owner < |flq| &&
       (s in flq[slabs[s].owner] <==> slabs[s].nfree > 0) && (s in lone <==> slabs[s].nfree <= 0)) &&
    lone <= used &&
    forall c, s :: 0 <= c < |flq| && s in flq[c] ==> s in used && slabs[s].owner == c
  }

  /** The owners of slabs in use stay, and free counts too, except that of `s`. */
  ghost predicate Kept(slabs: map<Addr, Slab>, slabs': map<Addr, Slab>, used: set<Addr>, s: Addr) {
    forall t <- used ::
      t in slabs && t in slabs' && slabs'[t].owner == slabs[t].owner && (t != s ==> slabs'[t].nfree == slabs[t].nfree)
  }

  lemma KeptIntro(slabs: map<Addr, Slab>, slabs': map<Addr, Slab>, used: set<Addr>, s: Addr)
    requires forall t <- used ::
               t in slabs && t in slabs' && slabs'[t].owner == slabs[t].owner &&
               (t != s ==> slabs'[t].nfree == slabs[t].nfree)
    ensures Kept(slabs, slabs', used, s)
  {
  }

  lemma OffLists(slabs: map<Addr, Slab>, used: set<Addr>, flq: seq<seq<Addr>>, lone: set<Addr>, s: Addr)
    requires Sorted(slabs, used, flq, lone)
    ensures s !in used ==> s !in lone && forall c :: 0 <= c < |flq| ==> s !in flq[c] && s !in SetOf(flq[c])
    ensures s in used ==>
              s in slabs && s != 0 && slabs[s].owner < |flq| && (s in flq[slabs[s].owner] <==> slabs[s].nfree > 0) &&
              (s in lone <==> slabs[s].nfree <= 0)
  {
  }

  lemma KeptKnows(slabs: map<Addr, Slab>, slabs': map<Addr, Slab>, used: set<Addr>, s: Addr)
    requires Kept(slabs, slabs', used, s)
    ensures forall t <- used ::
              t in slabs && t in slabs' && slabs'[t].owner == slabs[t].owner &&
              (t != s ==> slabs'[t].nfree == slabs[t].nfree)
  {
  }

  lemma OnList(slabs: map<Addr, Slab>, used: set<Addr>, flq: seq<seq<Addr>>, lone: set<Addr>, c: nat, s: Addr)
    requires Sorted(slabs, used, flq, lone) && c < |flq| && s in flq[c]
    ensures s in used && s in slabs && s != 0 && slabs[s].owner == c && slabs[s].nfree > 0 && s !in lone
  {
  }

  /** One slab of core `o` changes; everything about the others stays. */
  lemma SortedStep(slabs: map<Addr, Slab>, used: set<Addr>, flq: seq<seq<Addr>>, lone: set<Addr>,
                   slabs': map<Addr, Slab>, used': set<Addr>, flq': seq<seq<Addr>>, lone': set<Addr>, s: Addr, o: nat)
    requires Sorted(slabs, used, flq, lone) && Kept(slabs, slabs', used, s) && |flq'| == |flq| && o < |flq|
    requires forall c :: 0 <= c < |flq| && c != o ==> flq'[c] == flq[c]
    requires used' - {s} == used - {s} && lone' - {s} == lone - {s} && SetOf(flq'[o]) - {s} == SetOf(flq[o]) - {s}
    requires s in used ==> slabs[s].owner == o
    requires s in used' ==>
               s in slabs' && s != 0 && slabs'[s].owner == o && (s in flq'[o] <==> slabs'[s].nfree > 0) &&
               (s in lone' <==> slabs'[s].nfree <= 0)
    requires s !in used' ==> s !in lone' && s !in flq'[o]
    ensures Sorted(slabs', used', flq', lone')
  {
    SetOfHas(flq[o]);
    SetOfHas(flq'[o]);
    assert forall x :: x != s ==> (x in used' <==> x in used' - {s}) && (x in used <==> x in used - {s});
    assert forall x :: x != s ==> (x in lone' <==> x in lone' - {s}) && (x in lone <==> x in lone - {s});
    assert forall x ::
             x != s ==> (x in flq'[o] <==> x in SetOf(flq'[o]) - {s}) && (x in flq[o] <==> x in SetOf(flq[o]) - {s});
  }

  /** The slabs core `c` owns. */
  ghost function Owned(slabs: map<Addr, Slab>, used: set<Addr>, c: nat): set<Addr> {
    set s | s in used && s in slabs && slabs[s].owner == c
  }

  ghost predicate Counted(slabs: map<Addr, Slab>, used: set<Addr>, nslabs: seq<int>) {
    forall c :: 0 <= c < |nslabs| ==> nslabs[c] == |Owned(slabs, used, c)|
  }

  lemma CountedKept(slabs: map<Addr, Slab>, slabs': map<Addr, Slab>, used: set<Addr>, nslabs: seq<int>, s: Addr)
    requires Counted(slabs, used, nslabs) && Kept(slabs, slabs', used, s)
    ensures Counted(slabs', used, nslabs)
  {
    forall c | 0 <= c < |nslabs| ensures Owned(slabs', used, c) == Owned(slabs, used, c) {}
  }

  lemma CountedLess(slabs: map<Addr, Slab>, used: set<Addr>, nslabs: seq<int>, s: Addr, o: nat)
    requires Counted(slabs, used, nslabs) && o < |nslabs| && s in used && s in slabs && slabs[s].owner == o
    ensures Counted(slabs, used - {s}, nslabs[o := nslabs[o] - 1])
  {
    assert Owned(slabs, used - {s}, o) == Owned(slabs, used, o) - {s};
    forall c | 0 <= c < |nslabs| && c != o ensures Owned(slabs, used - {s}, c) == Owned(slabs, used, c) {}
  }

  lemma CountedMore(slabs: map<Addr, Slab>, used: set<Addr>, nslabs: seq<int>, s: Addr, o: nat)
    requires Counted(slabs, used, nslabs) && o < |nslabs| && s !in used && s in slabs && slabs[s].owner == o
    ensures Counted(slabs, used + {s}, nslabs[o := nslabs[o] + 1])
  {
    assert Owned(slabs, used + {s}, o) == Owned(slabs, used, o) + {s};
    forall c | 0 <= c < |nslabs| && c != o ensures Owned(slabs, used + {s}, c) == Owned(slabs, used, c) {}
  }

  function LastOf(xs: seq<Addr>): Addr {
    if xs == [] then 0 else xs[|xs| - 1]
  }

  /** `tail` and `nfree` of the remote queues. */
  ghost predicate Tailed(lists: map<Place, seq<Addr>>, tail: map<Place, Addr>, nremote: map<Place, nat>) {
    forall p <- lists ::
      p.Queued? ==> p in tail && p in nremote && nremote[p] == |lists[p]| && tail[p] == LastOf(lists[p])
  }

  /** There is a queue for every core and locality, and a place to drain for every
      core. */
  ghost predicate Everywhere(lists: map<Place, seq<Addr>>, cores: nat, localities: nat) {
    forall p :: p in lists <==> !p.Held? && p.core < cores && (p.Queued? ==> p.locality < localities)
  }

  lemma TailedStep(lists: map<Place, seq<Addr>>, tail: map<Place, Addr>, nremote: map<Place, nat>, p: Place,
      xs: seq<Addr>, cores: nat, localities: nat)
    requires Tailed(lists, tail, nremote) && Everywhere(lists, cores, localities) && p in lists
    ensures p.Queued? ==> p in tail && p in nremote && tail[p] == LastOf(lists[p]) && nremote[p] == |lists[p]|
    ensures Tailed(lists[p := xs], tail[p := LastOf(xs)], nremote[p := |xs|])
    ensures Everywhere(lists[p := xs], cores, localities)
    ensures !p.Queued? ==> Tailed(lists[p := xs], tail, nremote)
  {
  }

  /** The localities looked at from `start` on, before `next`. */
  predicate Seen(start: nat, next: nat, k: nat) {
    if start < next then start <= k < next else k >= start || k < next
  }

  function NextLocality(k: nat, localities: nat): nat
    requires localities > 0
  {
    (k + 1) % localities
  }

  /** The queues looked at are empty. */
  ghost predicate NoneSeen(lists: map<Place, seq<Addr>>, c: nat, localities: nat, start: nat, next: nat) {
    forall k: nat :: k < localities && Seen(start, next, k) ==> Queued(c, k) in lists && lists[Queued(c, k)] == []
  }

  /** The turn is at `next` with none but empty queues looked at before. */
  ghost predicate Turns(lists: map<Place, seq<Addr>>, c: nat, localities: nat, start: nat, next: nat) {
    next == start || NoneSeen(lists, c, localities, start, next)
  }

  lemma SeenMore(lists: map<Place, seq<Addr>>, c: nat, localities: nat, start: nat, k: nat)
    requires start < localities && k < localities && Queued(c, k) in lists
    requires k != start ==> NoneSeen(lists, c, localities, start, k)
    ensures lists[Queued(c, k)] == [] ==> NoneSeen(lists, c, localities, start, NextLocality(k, localities))
    ensures NextLocality(k, localities) == if k + 1 == localities then 0 else k + 1
  {
  }

  lemma SeenAll(lists: map<Place, seq<Addr>>, c: nat, localities: nat, start: nat)
    requires NoneSeen(lists, c, localities, start, start)
    ensures forall k :: 0 <= k < localities ==> Queued(c, k) in lists && lists[Queued(c, k)] == []
  {
  }

  lemma SumOfThree(x: set<Addr>, a: set<Addr>, b: set<Addr>, c: set<Addr>)
    requires (forall h :: h in x <==> h in a + b + c) && a !! b && a + b !! c
    ensures |x| == |a| + |b| + |c|
  {
    assert x == a + b + c;
  }

  /** The queue for locality `l` has become the list its owner drains. */
  ghost predicate TakenOver(place: map<Addr, Place>, lists: map<Place, seq<Addr>>, place': map<Addr, Place>,
      lists': map<Place, seq<Addr>>, c: nat, l: nat) {
    Queued(c, l) in lists && place' == Moved(place, lists[Queued(c, l)], Draining(c)) &&
    lists' == lists[Draining(c) := lists[Queued(c, l)]][Queued(c, l) := []]
  }

  lemma TakenKnows(place: map<Addr, Place>, lists: map<Place, seq<Addr>>, place': map<Addr, Place>,
      lists': map<Place, seq<Addr>>, c: nat, l: nat)
    requires TakenOver(place, lists, place', lists', c, l) && Draining(c) in lists && lists[Draining(c)] == []
    ensures Queued(c, l) in lists && (lists[Queued(c, l)] == [] ==> place' == place && lists' == lists)
  {
  }

  lemma MovedGone(place: map<Addr, Place>, q: seq<Addr>, d: Place)
    ensures Moved(place, q, d) - SetOf(q) == place - SetOf(q)
  {
  }

  lemma SetOfMore(q: seq<Addr>, i: nat)
    requires i < |q|
    ensures SetOf(q[..i + 1]) == SetOf(q[..i]) + {q[i]}
  {
  }

  /** ps_slabptr_init: every queue is empty. */
  method EmptyQueues(cores: nat, localities: nat) returns (zero: map<Place, Addr>, empty: map<Place, seq<Addr>>)
    ensures zero.Keys == empty.Keys && Everywhere(empty, cores, localities)
    ensures forall p <- zero :: zero[p] == 0 && empty[p] == []
  {
    zero, empty := map[], map[];
    var c := 0;
    while c < cores
      invariant c <= cores && zero.Keys == empty.Keys && Everywhere(empty, c, localities)
      invariant forall p <- zero :: zero[p] == 0 && empty[p] == []
    {
      var l := 0;
      while l < localities
        invariant l <= localities && zero.Keys == empty.Keys
        invariant forall p <- zero :: zero[p] == 0 && empty[p] == []
        invariant forall p :: p in empty <==>
          !p.Held? &&
          (if p.core == c then p.Queued? && p.locality < l else p.core < c && (p.Queued? ==> p.locality < localities))
      {
        zero, empty := zero[Queued(c, l) := 0], empty[Queued(c, l) := []];
        l := l + 1;
      }
      zero, empty := zero[Draining(c) := 0], empty[Draining(c) := []];
      c := c + 1;
    }
  }

  class PsMem {
    const mem: SlabMemory
    const ls: SlabLists
    const cores: nat                     // PS_NUMCORES
    const localities: nat                // PS_NUMLOCALITIES
    const batch: nat                     // PS_REMOTE_BATCH
    var nslabs: seq<int>
    var allocs: seq<nat>                 // salloccnt
    var token: seq<nat>                  // remote_token
    var first: map<Place, Addr>          // the head of a remote queue; where an owner stands in its detached list
    var tail: map<Place, Addr>
    var nremote: map<Place, nat>
    ghost var place: map<Addr, Place>
    ghost var lists: map<Place, seq<Addr>>

    /** An object carries the mark of a free one exactly while it is free. */
    ghost predicate Marked() reads mem {
      forall s <- mem.used, h <- mem.Objs(s) :: h in mem.heads && (mem.heads[h].tag == 0 <==> mem.Live(h))
    }

    /** The objects' side of the invariant. */
    ghost predicate Objects() reads this`place, this`first, this`lists, mem {
      mem.Valid() && (forall h :: mem.Live(h) <==> h in place) && Marked() &&
      Placed(mem.heads, mem.slabs, place, first, lists)
    }

    ghost predicate Core() reads this, mem, ls, ls.links, ls.fl {
      Objects() && ls.Valid() && cores == |ls.fl| == |ls.flq| == |nslabs| == |allocs| == |token| && localities > 0 &&
      batch > 0 &&
      (forall c :: 0 <= c < cores ==> token[c] < localities) &&
      Tailed(lists, tail, nremote) && Everywhere(lists, cores, localities) &&
      Sorted(mem.slabs, mem.used, ls.flq, ls.lone) && Counted(mem.slabs, mem.used, nslabs)
    }

    ghost predicate Valid() reads this, mem, ls, ls.links, ls.fl {
      Core() && forall s <- mem.used :: s in mem.slabs && mem.slabs[s].nfree < mem.cap
    }

    constructor (cores: nat, localities: nat, batch: nat, objSz: nat, allocSz: nat, headOff: nat)
      requires localities > 0 && batch > 0 && headOff > 0 && objSz + HEADER <= WORD - 8
      requires ObjMemSz(objSz, 8) + headOff <= allocSz
      ensures Valid() && place == map[] && mem.used == {}
    {
      hide ObjMemSz, MaxObjs, SlabMemory.Valid, SlabLists.Valid, Everywhere, Chained;
      assert WORD % 8 == 0;
      this.cores, this.localities, this.batch := cores, localities, batch;
      mem := new SlabMemory(objSz, 8, allocSz, headOff);
      ls := new SlabLists(cores);
      nslabs := seq(cores, _ => 0);
      allocs := seq(cores, _ => 0);
      token := seq(cores, _ => 0);
      var zero, empty := EmptyQueues(cores, localities);
      first, tail, nremote := zero, zero, zero;
      place, lists := map[], empty;
      new;
      NoneChained(mem.heads);
      assert forall c :: 0 <= c < cores ==> Owned(mem.slabs, mem.used, c) == {};
    }

    /** The owner of an object that is not free. */
    ghost predicate OwnedBy(h: Addr, c: nat) reads mem {
      h in mem.heads && mem.heads[h].slab in mem.slabs && mem.slabs[mem.heads[h].slab].owner == c
    }

    lemma LiveHere()
      requires Objects()
      ensures mem.cap > 0 && mem.headOff > 0 && mem.stride > 0 && forall s <- mem.used :: s in mem.slabs
      ensures forall h <- place ::
                h in mem.heads && mem.heads[h].slab in mem.used && h in mem.Objs(mem.heads[h].slab) &&
                mem.heads[h].slab in mem.slabs
    {
    }

    method ThreadSlab(core: nat, s: Addr, junk: Addr)
      requires Objects() && s !in mem.used && forall t <- mem.used :: mem.ApartAt(s, t)
      modifies mem
      ensures Objects() && mem.used == old(mem.used) + {s} && s in mem.slabs && mem.slabs[s].nfree == mem.cap > 0
      ensures mem.slabs[s].owner == core
      ensures Kept(old(mem.slabs), mem.slabs, old(mem.used), s)
      ensures mem.FirstFree(s) == mem.Hdr(s, 0)
    {
      hide SlabMemory.Valid, SlabMemory.Live, SlabMemory.ApartAt, SlabMemory.Objs, Placed, Kept;
      LiveHere();
      mem.Thread(s, core, 0, 1, junk);
      PlacedSame(old(mem.heads), old(mem.slabs), mem.heads, mem.slabs, place, first, lists);
      KeptIntro(old(mem.slabs), mem.slabs, old(mem.used), s);
    }

    /** __ps_slab_init on memory from the system. */
    method NewSlab(core: nat, s: Addr, junk: Addr)
      requires Core() && core < cores && s != 0 && s !in mem.used && forall t <- mem.used :: mem.ApartAt(s, t)
      modifies this`nslabs, mem, ls, ls.links, ls.fl[core]
      ensures Core() && mem.used == old(mem.used) + {s} && s in mem.slabs && mem.slabs[s].nfree == mem.cap
      ensures Kept(old(mem.slabs), mem.slabs, old(mem.used), s) && ls.fl[core].list == s && s in ls.flq[core]
      ensures mem.FirstFree(s) == mem.Hdr(s, 0)
    {
      hide Objects, SlabMemory.ApartAt, SlabLists.Valid, Tailed, Sorted, Counted, Everywhere, Kept;
      OffLists(mem.slabs, mem.used, ls.flq, ls.lone, s);
      ThreadSlab(core, s, junk);
      ls.Init(s);
      ls.Add(core, s);
      SetOfHas(ls.flq[core]);
      SortedStep(old(mem.slabs), old(mem.used), old(ls.flq), old(ls.lone), mem.slabs, mem.used, ls.flq, ls.lone, s,
          core);
      CountedKept(old(mem.slabs), mem.slabs, old(mem.used), nslabs, s);
      CountedMore(mem.slabs, old(mem.used), nslabs, s, core);
      nslabs := nslabs[core := nslabs[core] + 1];
    }

    /** An object leaves slab `s` for the program. */
    method TakeObject(s: Addr) returns (h: Addr)
      requires Objects() && s in mem.used && s in mem.slabs && mem.slabs[s].nfree > 0
      modifies this`place, mem
      ensures Objects() && mem.used == old(mem.used) && Kept(old(mem.slabs), mem.slabs, mem.used, s)
      ensures h != 0 && h !in old(place) && place == old(place)[h := Held] && OwnedBy(h, old(mem.slabs)[s].owner)
      ensures s in mem.slabs && 0 <= mem.slabs[s].nfree == old(mem.slabs)[s].nfree - 1 < mem.cap
      ensures h == old(mem.FirstFree(s))
    {
      hide SlabMemory.Valid, SlabMemory.Live, Placed, Kept;
      LiveHere();
      mem.NfreeBound(s);
      h := mem.Take(s, 0);
      PlacedMore(old(mem.heads), old(mem.slabs), mem.heads, mem.slabs, place, first, lists, h);
      KeptIntro(old(mem.slabs), mem.slabs, mem.used, s);
      place := place[h := Held];
    }

    /** The allocation itself in __ps_slab_mem_alloc.  `chunk` is what the system's
        allocator answers if it is asked; NULL makes the allocation fail. */
    method AllocStep(core: nat, chunk: Addr, junk: Addr) returns (h: Addr)
      requires Valid() && core < cores
      requires chunk != 0 ==> chunk !in mem.used && forall t <- mem.used :: mem.ApartAt(chunk, t)
      modifies this`place, this`nslabs, mem, ls, ls.links, ls.fl[core]
      ensures Valid()
      ensures h == 0 <==> chunk == 0 && old(ls.flq[core]) == []
      ensures if h == 0 then
                place == old(place)
              else
                h !in old(place) && place == old(place)[h := Held] && OwnedBy(h, core)
      ensures old(ls.flq[core]) != [] ==> mem.used == old(mem.used) && h == old(mem.FirstFree(ls.flq[core][0]))
      ensures old(ls.flq[core]) == [] && h != 0 ==> mem.used == old(mem.used) + {chunk} && h == mem.Hdr(chunk, 0)
    {
      hide Objects, SlabMemory.ApartAt, SlabLists.Valid, Tailed, Sorted, Counted, Everywhere, Kept;
      var s := ls.fl[core].list;
      ls.FirstOn(core);
      if s == 0 {
        if chunk == 0 {
          return 0;
        }
        s := chunk;
        NewSlab(core, s, junk);
        KeptKnows(old(mem.slabs), mem.slabs, old(mem.used), s);
      }
      h := Carve(core, s);
    }

    /** The end of the allocation: a slab without free objects leaves its list. */
    method Carve(core: nat, s: Addr) returns (h: Addr)
      requires Core() && core < cores && s in ls.flq[core]
      requires forall t <- mem.used :: t in mem.slabs && (t != s ==> mem.slabs[t].nfree < mem.cap)
      modifies this`place, mem, ls, ls.links, ls.fl[core]
      ensures Valid() && h != 0 && h !in old(place) && place == old(place)[h := Held] && OwnedBy(h, core)
      ensures mem.used == old(mem.used) && h == old(mem.FirstFree(s))
    {
      hide Objects, SlabMemory.ApartAt, SlabLists.Valid, Tailed, Sorted, Counted, Everywhere, Kept;
      OnList(mem.slabs, mem.used, ls.flq, ls.lone, core, s);
      h := TakeObject(s);
      KeptKnows(old(mem.slabs), mem.slabs, mem.used, s);
      CountedKept(old(mem.slabs), mem.slabs, mem.used, nslabs, s);
      if mem.slabs[s].nfree == 0 {
        ls.Rem(core, s);
        SetOfHas(ls.flq[core]);
      }
      SortedStep(old(mem.slabs), mem.used, old(ls.flq), old(ls.lone), mem.slabs, mem.used, ls.flq, ls.lone, s, core);
    }

    /** An object the program held is free again. */
    method GiveObject(h: Addr) returns (s: Addr)
      requires Objects() && h in place && place[h].Held?
      modifies this`place, mem
      ensures Objects() && mem.used == old(mem.used) && Kept(old(mem.slabs), mem.slabs, mem.used, s)
      ensures place == old(place) - {h} && old(OwnedBy(h, mem.slabs[mem.heads[h].slab].owner))
      ensures s == old(mem.heads[h].slab)
      ensures s in mem.used && s in mem.slabs && 0 < mem.slabs[s].nfree == old(mem.slabs)[s].nfree + 1 <= mem.cap
      ensures mem.FirstFree(s) == h
    {
      hide SlabMemory.Valid, SlabMemory.Live, Placed, Kept;
      LiveHere();
      s := mem.Give(h, 1);
      mem.NfreeBound(s);
      PlacedLess(old(mem.heads), old(mem.slabs), mem.heads, mem.slabs, place, first, lists, h);
      KeptIntro(old(mem.slabs), mem.slabs, mem.used, s);
      place := place - {h};
    }

    /** A free by the owner, in __ps_slab_mem_free. */
    method FreeHere(core: nat, h: Addr)
      requires Valid() && core < cores && h in place && place[h].Held? && OwnedBy(h, core)
      modifies this`place, this`nslabs, mem, ls, ls.links, ls.fl[core]
      ensures Valid() && place == old(place) - {h} && mem.used <= old(mem.used)
      ensures var s := old(mem.heads[h].slab);
              mem.FirstFree(s) == h && s in old(mem.slabs)
              && (mem.used == old(mem.used) || mem.used == old(mem.used) - {s})
              && (old(mem.slabs)[s].nfree == 0 && s in mem.used ==> ls.fl[core].list == s)
    {
      hide Objects, SlabMemory.ApartAt, SlabLists.Valid, Tailed, Sorted, Counted, Everywhere, Kept;
      var s := GiveObject(h);
      KeptKnows(old(mem.slabs), mem.slabs, mem.used, s);
      OffLists(old(mem.slabs), mem.used, ls.flq, ls.lone, s);
      CountedKept(old(mem.slabs), mem.slabs, mem.used, nslabs, s);
      Settle(core, s, old(mem.slabs));
    }

    /** The list of the owner catches up with a freed object of slab `s`. */
    method Settle(core: nat, s: Addr, ghost slabs: map<Addr, Slab>)
      requires Objects() && ls.Valid() && core < |ls.fl| == |ls.flq| == |nslabs|
      requires Sorted(slabs, mem.used, ls.flq, ls.lone) && Counted(mem.slabs, mem.used, nslabs)
      requires Kept(slabs, mem.slabs, mem.used, s) && s in mem.used && s in slabs && s in mem.slabs
      requires slabs[s].owner == core && 0 <= slabs[s].nfree == mem.slabs[s].nfree - 1 < mem.cap
      modifies this`nslabs, mem`used, ls, ls.links, ls.fl[core]
      ensures Objects() && ls.Valid() && |ls.fl| == |ls.flq| == |nslabs|
      ensures Sorted(mem.slabs, mem.used, ls.flq, ls.lone) && Counted(mem.slabs, mem.used, nslabs)
      ensures mem.used == if mem.slabs[s].nfree == mem.cap then old(mem.used) - {s} else old(mem.used)
      ensures slabs[s].nfree == 0 && s in mem.used ==> ls.fl[core].list == s
    {
      hide Objects, SlabMemory.ApartAt, SlabLists.Valid, Sorted, Counted, Kept;
      OffLists(slabs, mem.used, ls.flq, ls.lone, s);
      KeptKnows(slabs, mem.slabs, mem.used, s);
      if mem.slabs[s].nfree == mem.cap {
        CountedLess(mem.slabs, mem.used, nslabs, s, core);
        nslabs := nslabs[core := nslabs[core] - 1];
        ls.Rem(core, s);
        ls.Forget(s);
        RetireSlab(s);
      } else if mem.slabs[s].nfree == 1 {
        ls.Add(core, s);
      }
      SetOfHas(ls.flq[core]);
      SortedStep(slabs, old(mem.used), old(ls.flq), old(ls.lone), mem.slabs, mem.used, ls.flq, ls.lone, s, core);
    }

    ghost method RetireSlab(s: Addr)
      requires Objects() && s in mem.used && s in mem.slabs && mem.slabs[s].nfree == mem.cap
      modifies mem`used
      ensures Objects() && mem.used == old(mem.used) - {s}
    {
      hide SlabMemory.Valid, SlabMemory.Live, Placed;
      mem.Retire(s);
    }

    lemma Listed(c: nat, l: nat)
      requires Everywhere(lists, cores, localities) && c < cores && l < localities
      ensures Queued(c, l) in lists && Draining(c) in lists
    {
    }

    /** The `next` of an object that is not free is written. */
    method Relink(h: Addr, x: Addr)
      requires mem.Valid() && (forall y :: mem.Live(y) <==> y in place) && Marked() && h in place && h in mem.heads
      modifies mem`heads
      ensures mem.Valid() && (forall y :: mem.Live(y) <==> y in place) && Marked()
      ensures mem.heads == old(mem.heads)[h := old(mem.heads)[h].(next := x)]
    {
      hide SlabMemory.Valid, SlabMemory.Live;
      mem.SetNext(h, x);
    }

    /** __ps_slab_mem_remote_free, under the queue's lock: `h` joins the queue of its
        owner for `locality`.  Its own `next` is NULL already and is not written. */
    method RemoteFree(h: Addr, locality: nat) returns (target: nat)
      requires Valid() && h in place && place[h].Held? && locality < localities
      modifies this`place, this`first, this`tail, this`nremote, this`lists, mem`heads
      ensures Valid()
      ensures old(OwnedBy(h, target)) && target < cores && Queued(target, locality) in old(lists)
      ensures place == old(place)[h := Queued(target, locality)]
      ensures lists == old(lists)[Queued(target, locality) := old(lists)[Queued(target, locality)] + [h]]
    {
      hide SlabMemory.Valid, SlabMemory.Live, Placed, SlabLists.Valid, Sorted, Counted, Tailed, Everywhere, Marked;
      LiveHere();
      var s := mem.heads[h].slab;
      OffLists(mem.slabs, mem.used, ls.flq, ls.lone, s);
      target := mem.slabs[s].owner;
      var p := Queued(target, locality);
      Listed(target, locality);
      PlacedKnows(mem.heads, mem.slabs, place, first, lists, p);
      TailedStep(lists, tail, nremote, p, lists[p] + [h], cores, localities);
      PlacedQueued(mem.heads, mem.slabs, place, first, lists, h, p, tail[p]);
      if tail[p] != 0 {
        Relink(tail[p], h);
      } else {
        first := first[p := h];
      }
      tail := tail[p := h];
      nremote := nremote[p := nremote[p] + 1];
      lists := lists[p := lists[p] + [h]];
      place := place[h := p];
    }

    /** One round of the loop of __ps_slab_mem_remote_process, under the queue's
        lock: the owner takes over a whole queue. */
    method Detach(core: nat, locality: nat) returns (h: Addr)
      requires Valid() && core < cores && locality < localities && Queued(core, locality) in lists
      requires Draining(core) in lists && lists[Draining(core)] == []
      modifies this`place, this`first, this`tail, this`nremote, this`lists
      ensures Valid() && (h == 0 <==> old(lists)[Queued(core, locality)] == [])
      ensures TakenOver(old(place), old(lists), place, lists, core, locality)
    {
      hide SlabMemory.Valid, SlabMemory.Live, Placed, SlabLists.Valid, Sorted, Counted, Tailed, Everywhere, Marked;
      var p, d := Queued(core, locality), Draining(core);
      PlacedKnows(mem.heads, mem.slabs, place, first, lists, p);
      PlacedDetached(mem.heads, mem.slabs, place, first, lists, p, d);
      TailedStep(lists, tail, nremote, d, lists[p], cores, localities);
      TailedStep(lists[d := lists[p]], tail, nremote, p, [], cores, localities);
      h := first[p];
      first, tail, nremote := first[d := h][p := 0], tail[p := 0], nremote[p := 0];
      place := Moved(place, lists[p], d);
      lists := lists[d := lists[p]][p := []];
    }

    /** One round of the loop that frees the detached objects.  The header it reads
        is that of an object that is not free, so its slab is still in use. */
    method DrainOne(core: nat)
      requires Valid() && core < cores && Draining(core) in lists && lists[Draining(core)] != []
      modifies this`place, this`first, this`lists, this`nslabs, mem, ls, ls.links, ls.fl[core]
      ensures Valid() && old(first[Draining(core)] in mem.heads && mem.heads[first[Draining(core)]].slab in mem.used)
      ensures lists == old(lists)[Draining(core) := old(lists)[Draining(core)][1..]] && mem.used <= old(mem.used)
      ensures place == old(place) - {old(lists)[Draining(core)][0]}
    {
      hide SlabMemory.Live, Objects, SlabLists.Valid, Tailed, Sorted, Counted, Everywhere;
      var h := PopOne(core);
      FreeHere(core, h);
      assert old(place)[h := Held] - {h} == old(place) - {h};
    }

    method PopOne(core: nat) returns (h: Addr)
      requires Valid() && core < cores && Draining(core) in lists && lists[Draining(core)] != []
      modifies this`place, this`first, this`lists, mem`heads
      ensures Valid() && h == old(first)[Draining(core)] == old(lists)[Draining(core)][0]
      ensures old(first[Draining(core)] in mem.heads && mem.heads[first[Draining(core)]].slab in mem.used)
      ensures h in place && place == old(place)[h := Held] && OwnedBy(h, core)
      ensures lists == old(lists)[Draining(core) := old(lists)[Draining(core)][1..]]
    {
      hide SlabMemory.Valid, SlabMemory.Live, Placed, SlabLists.Valid, Sorted, Counted, Tailed, Everywhere, Marked;
      LiveHere();
      var d := Draining(core);
      PlacedKnows(mem.heads, mem.slabs, place, first, lists, d);
      PlacedPopped(mem.heads, mem.slabs, place, first, lists, d);
      TailedStep(lists, tail, nremote, d, lists[d][1..], cores, localities);
      h := first[d];
      first := first[d := mem.heads[h].next];
      Relink(h, 0);
      lists := lists[d := lists[d][1..]];
      place := place[h := Held];
    }

    /** __ps_slab_mem_remote_process: the queues of one core are looked at in turn,
        from where the last search ended, and the first that is not empty is freed.
        `l` is its locality, or any if all are empty. */
    method RemoteProcess(core: nat) returns (ghost l: nat)
      requires Valid() && core < cores && Draining(core) in lists && lists[Draining(core)] == []
      modifies this`place, this`first, this`tail, this`nremote, this`lists, this`token, this`nslabs
      modifies mem, ls, ls.links, ls.fl[core]
      ensures Valid() && l < localities && Queued(core, l) in old(lists) && mem.used <= old(mem.used)
      ensures place == old(place) - SetOf(old(lists)[Queued(core, l)]) && lists == old(lists)[Queued(core, l) := []]
      ensures old(lists)[Queued(core, l)] == [] ==>
                forall k :: 0 <= k < localities ==> Queued(core, k) in old(lists) && old(lists)[Queued(core, k)] == []
      ensures core < |old(token)| && Turns(old(lists), core, localities, old(token)[core], l)
      ensures localities > 0 && token == old(token)[core := NextLocality(l, localities)]
      ensures old(lists)[Queued(core, l)] == [] ==> token == old(token)
    {
      hide Valid, Core, Objects, Moved, NoneSeen, Seen, NextLocality, Turns;
      Fields(core);
      ghost var start := token[core];
      l := FindQueue(core);
      ghost var q := old(lists)[Queued(core, l)];
      if q == [] {
        SeenAll(old(lists), core, localities, start);
      }
      DrainAll(core);
      MovedGone(old(place), q, Draining(core));
    }

    lemma Basics(core: nat)
      requires Core() && core < cores
      ensures |token| == |allocs| == |ls.fl| == cores && token[core] < localities && localities > 0
      ensures Draining(core) in lists && Draining(core) in first
      ensures forall l: nat :: l < localities ==> Queued(core, l) in lists
      ensures first[Draining(core)] == 0 <==> lists[Draining(core)] == []
    {
      PlacedKnows(mem.heads, mem.slabs, place, first, lists, Draining(core));
    }

    lemma Fields(core: nat)
      requires Valid() && core < cores
      ensures |token| == |ls.fl| == cores && token[core] < localities && localities > 0
      ensures Draining(core) in lists && Draining(core) in first
      ensures forall l: nat :: l < localities ==> Queued(core, l) in lists
      ensures first[Draining(core)] == 0 <==> lists[Draining(core)] == []
    {
      Basics(core);
    }

    /** The search ends when a queue that is not empty has been taken over, or all
        have been looked at. */
    method FindQueue(core: nat) returns (ghost l: nat)
      requires Valid() && core < cores && Draining(core) in lists && lists[Draining(core)] == []
      modifies this`place, this`first, this`tail, this`nremote, this`lists, this`token
      ensures Valid() && l < localities && TakenOver(old(place), old(lists), place, lists, core, l)
      ensures old(lists)[Queued(core, l)] == [] ==>
                NoneSeen(old(lists), core, localities, old(token)[core], old(token)[core])
      ensures Turns(old(lists), core, localities, old(token)[core], l)
      ensures localities > 0 && token == old(token)[core := NextLocality(l, localities)]
      ensures old(lists)[Queued(core, l)] == [] ==> token == old(token)
    {
      hide Valid, Core, NoneSeen, Seen, TakenOver, NextLocality;
      Fields(core);
      ghost var place0, lists0 := place, lists;
      var start := token[core];
      l := start;
      var locality: nat := start;
      var h := Detach(core, locality);
      TakenKnows(place0, lists0, place, lists, core, l);
      SeenMore(lists0, core, localities, start, start);
      locality := NextLocality(locality, localities);
      while h == 0 && locality != start
        invariant Valid() && locality < localities && l < localities && token == old(token)
        invariant TakenOver(place0, lists0, place, lists, core, l) && (h == 0 <==> lists0[Queued(core, l)] == [])
        invariant h == 0 ==> NoneSeen(lists0, core, localities, start, locality)
        invariant Turns(lists0, core, localities, start, l) && locality == NextLocality(l, localities)
        decreases h == 0, if locality <= start then start - locality else start + localities - locality
      {
        TakenKnows(place0, lists0, place, lists, core, l);
        Fields(core);
        l := locality;
        h := Detach(core, locality);
        SeenMore(lists0, core, localities, start, l);
        locality := NextLocality(locality, localities);
      }
      SetToken(core, locality);
    }

    method SetToken(core: nat, locality: nat)
      requires Valid() && core < cores && locality < localities
      modifies this`token
      ensures Valid() && core < |old(token)| && token == old(token)[core := locality]
    {
      hide Objects, SlabLists.Valid, Tailed, Sorted, Counted, Everywhere;
      token := token[core := locality];
    }

    method DrainAll(core: nat)
      requires Valid() && core < cores && Draining(core) in lists
      modifies this`place, this`first, this`lists, this`nslabs, mem, ls, ls.links, ls.fl[core]
      ensures Valid() && mem.used <= old(mem.used)
      ensures place == old(place) - SetOf(old(lists)[Draining(core)]) && lists == old(lists)[Draining(core) := []]
    {
      hide Core;
      Basics(core);
      var d := Draining(core);
      ghost var q := lists[d];
      ghost var i := 0;
      while first[d] != 0
        invariant Valid() && d in lists && d in first && mem.used <= old(mem.used)
        invariant i <= |q| && lists == old(lists)[d := q[i..]] && place == old(place) - SetOf(q[..i])
        invariant first[d] == 0 <==> lists[d] == []
        decreases |q| - i
      {
        DrainOne(core);
        SetOfMore(q, i);
        i := i + 1;
        Basics(core);
      }
      assert q[..i] == q;
    }

    /** The beginning of __ps_slab_mem_alloc: with every `batch`-th allocation the
        owner first frees a queue other cores have filled, here for locality `l`. */
    method Tick(core: nat) returns (ghost l: nat)
      requires Valid() && core < cores && Draining(core) in lists && lists[Draining(core)] == []
      modifies this, mem, ls, ls.links, ls.fl[core]
      ensures Valid() && mem.used <= old(mem.used) && Draining(core) in lists && lists[Draining(core)] == []
      ensures core < |old(allocs)| && allocs == old(allocs)[core := old(allocs)[core] + 1] && batch > 0
      ensures allocs[core] % batch != 0 ==> place == old(place) && lists == old(lists)
      ensures allocs[core] % batch == 0 ==> l < localities && Queued(core, l) in old(lists)
      ensures allocs[core] % batch == 0 ==> place == old(place) - SetOf(old(lists)[Queued(core, l)])
      ensures allocs[core] % batch == 0 ==> lists == old(lists)[Queued(core, l) := []]
      ensures forall h <- old(place) :: old(place)[h].Held? ==> h in place && place[h].Held?
    {
      hide Core, Valid;
      Count(core);
      Fields(core);
      PlacedKnowsAll();
      l := 0;
      if allocs[core] % batch == 0 {
        l := RemoteProcess(core);
        SetOfHas(old(lists)[Queued(core, l)]);
      }
    }

    method Count(core: nat)
      requires Valid() && core < cores
      modifies this`allocs
      ensures Valid() && batch > 0 && core < |old(allocs)| && allocs == old(allocs)[core := old(allocs)[core] + 1]
    {
      hide Objects, SlabLists.Valid, Tailed, Sorted, Counted, Everywhere;
      allocs := allocs[core := allocs[core] + 1];
    }

    lemma PlacedKnowsAll()
      requires Valid()
      ensures forall p <- lists, h <- lists[p] :: h in place && !place[h].Held?
    {
    }

    lemma MarkOf(h: Addr)
      requires Core() && exists s <- mem.used :: h in mem.Objs(s)
      ensures h in mem.heads && (mem.heads[h].tag == 0 <==> h in place)
      ensures h in place ==> mem.heads[h].slab in mem.slabs
    {
    }

    /** The assertion at the beginning of __ps_slab_mem_free, for any object of a
        slab in use: it notices exactly the frees of free objects.  A second free of
        one that is still queued passes. */
    method IsFree(h: Addr) returns (free: bool)
      requires Valid() && exists s <- mem.used :: h in mem.Objs(s)
      ensures h in mem.heads && (free <==> h !in place)
    {
      MarkOf(h);
      free := mem.heads[h].tag != 0;
    }

    /** __ps_slab_mem_free of any object of a slab in use that is not queued.  The
        assertion of the original stops exactly the frees of free objects. */
    method MemFree(core: nat, h: Addr, locality: nat) returns (stopped: bool, ghost target: nat)
      requires Valid() && core < cores && locality < localities
      requires exists s <- mem.used :: h in mem.Objs(s)
      requires h in place ==> place[h].Held?
      modifies this`place, this`first, this`tail, this`nremote, this`lists, this`nslabs, mem, ls, ls.links, ls.fl[core]
      ensures Valid() && (stopped <==> h !in old(place))
      ensures stopped ==> place == old(place) && mem.heads == old(mem.heads)
      ensures !stopped && target == core ==> place == old(place) - {h} && lists == old(lists)
      ensures !stopped ==> old(OwnedBy(h, target))
      ensures !stopped && target != core ==> place == old(place)[h := Queued(target, locality)]
    {
      MarkOf(h);
      hide Core, SlabMemory.Objs;
      stopped := IsFree(h);
      target := 0;
      if stopped {
        return;
      }
      target := mem.slabs[mem.heads[h].slab].owner;
      if mem.slabs[mem.heads[h].slab].owner != core {
        var to := RemoteFree(h, locality);
      } else {
        FreeHere(core, h);
      }
    }

    // ---- conservation --------------------------------------------------------------------

    /** What the remote queues of core `c` for the first `n` localities hold. */
    ghost function Remote(c: nat, n: nat): nat
      reads this`lists
    {
      if n == 0 then 0 else Remote(c, n - 1) + if Queued(c, n - 1) in lists then |lists[Queued(c, n - 1)]| else 0
    }

    ghost function HeldOf(c: nat): set<Addr> reads this`place, mem {
      set h | h in place && place[h].Held? && OwnedBy(h, c)
    }

    ghost function QueuedOf(c: nat, n: nat): set<Addr> reads this`place {
      set h | h in place && place[h].Queued? && place[h].core == c && place[h].locality < n
    }

    lemma {:induction false} QueuedCount(c: nat, n: nat)
      requires Core() && c < cores && n <= localities
      ensures |QueuedOf(c, n)| == Remote(c, n)
    {
      hide Core;
      if n > 0 {
        QueuedCount(c, n - 1);
        Basics(c);
        ListSize(Queued(c, n - 1));
        QueuedSplit(c, n);
      }
    }

    lemma ListSize(p: Place)
      requires Core() && p in lists
      ensures |SetOf(lists[p])| == |lists[p]|
    {
      assert Chained(mem.heads, first[p], lists[p]);
      SizeOf(lists[p]);
    }

    lemma ListKnows(p: Place)
      requires Core() && p in lists
      ensures forall h :: h in place && place[h] == p <==> h in lists[p]
    {
    }

    lemma QueuedSplit(c: nat, n: nat)
      requires Core() && c < cores && 0 < n <= localities && Queued(c, n - 1) in lists
      ensures |QueuedOf(c, n)| == |QueuedOf(c, n - 1)| + |SetOf(lists[Queued(c, n - 1)])|
    {
      hide Core;
      var p := Queued(c, n - 1);
      ListKnows(p);
      assert QueuedOf(c, n) == QueuedOf(c, n - 1) + SetOf(lists[p]);
      DisjointSizes(QueuedOf(c, n - 1), SetOf(lists[p]));
    }

    /** Of the objects of a core's slabs, every one is with the program, queued,
        being drained or free, and in only one of these places. */
    lemma Balance(c: nat)
      requires Core() && c < cores && Draining(c) in lists
      ensures |HeldOf(c)| + Remote(c, localities) + |lists[Draining(c)]| +
                  |mem.FreeOf(Owned(mem.slabs, mem.used, c))| == nslabs[c] * mem.cap
    {
      KnowCounts(c);
      mem.Conserved(Owned(mem.slabs, mem.used, c));
      QueuedCount(c, localities);
      ListSize(Draining(c));
      LiveParts(c);
    }

    lemma KnowCounts(c: nat)
      requires Core() && c < cores
      ensures nslabs[c] == |Owned(mem.slabs, mem.used, c)|
    {
    }

    lemma LiveParts(c: nat)
      requires Core() && c < cores && Draining(c) in lists
      ensures |mem.LiveOf(Owned(mem.slabs, mem.used, c))| == |HeldOf(c)| + |QueuedOf(c, localities)| +
                  |SetOf(lists[Draining(c)])|
    {
      hide SlabMemory.LiveOf, OwnedBy, Owned;
      var a, q, d := HeldOf(c), QueuedOf(c, localities), SetOf(lists[Draining(c)]);
      OwnersOf(c);
      ListKnows(Draining(c));
      hide Core;
      forall h ensures h in mem.LiveOf(Owned(mem.slabs, mem.used, c)) <==> h in a + q + d {
        assert h in a <==> h in place && place[h].Held? && OwnedBy(h, c);
        assert h in q <==> h in place && place[h].Queued? && OwnedBy(h, c);
        assert h in d <==> h in place && place[h] == Draining(c);
      }
      assert a !! q && a + q !! d;
      hide *;
      SumOfThree(mem.LiveOf(Owned(mem.slabs, mem.used, c)), a, q, d);
    }

    /** Everything on a core's lists is in its slabs. */
    lemma OwnersOf(c: nat)
      requires Core() && c < cores
      ensures forall h :: h in mem.LiveOf(Owned(mem.slabs, mem.used, c)) <==> h in place && OwnedBy(h, c)
      ensures forall h <- place ::
                !place[h].Held? ==>
                  (OwnedBy(h, c) <==> place[h].core == c) && (place[h].Queued? ==> place[h].locality < localities)
    {
      hide SlabMemory.LiveOf, SlabMemory.Live;
      LiveHere();
      mem.Conserved(Owned(mem.slabs, mem.used, c));
    }
  }
}
