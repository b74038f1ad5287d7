/** Slabs: chunks of memory cut into equal objects, each with a header that
    threads it on the free list of its slab while it is free. */
module SlabMemory {
  import opened Common
  import opened PsList

  const HEADER: nat := 24            // sizeof(struct ps_mheader)

  /** Unsigned negation of a word. */
  function Negate(x: nat): nat
    requires x < WORD
  {
    (WORD - x) % WORD
  }

  /** `x & -a` for a power of two `a`: the bits below `a` are cleared. */
  function Mask(x: nat, a: nat): nat
    requires a > 0
  {
    x - x % a
  }

  /** Clearing the low bits of a word is taking the remainder away. */
  lemma MaskBits(x: bv64)
    ensures x & (0 - 64) == x - x % 64 && x & (0 - 8) == x - x % 8
  {
  }

  /** PS_RNDUP. */
  function RoundUp(v: nat, a: nat): nat
    requires v < WORD && a > 0
  {
    Negate(Mask(Negate(v), a))
  }

  /** The least multiple of `a` that is not below `v`, as long as that is a word;
      for the last `a - 1` words the result is zero. */
  lemma RoundUpLeast(v: nat, a: nat)
    requires v < WORD && 0 < a <= WORD && WORD % a == 0
    ensures RoundUp(v, a) % a == 0
    ensures v <= WORD - a ==> v <= RoundUp(v, a) < v + a
    ensures v > WORD - a ==> RoundUp(v, a) == 0
  {
    hide Negate, Mask;
    var n := Negate(v);
    NegateIs(v);
    MaskBelow(n, a);
    NegateIs(Mask(n, a));
    Difference(WORD, Mask(n, a), a);
    Remainder(0, a);
  }

  lemma NegateIs(x: nat)
    requires x < WORD
    ensures Negate(x) == if x == 0 then 0 else WORD - x
  {
  }

  lemma MaskBelow(x: nat, a: nat)
    requires a > 0
    ensures Mask(x, a) <= x < Mask(x, a) + a && Mask(x, a) % a == 0 && (Mask(x, a) == 0 <==> x < a)
  {
    assert x == x / a * a + x % a;
    MultipleOf(x / a, a);
    if x < a {
      Remainder(x, a);
    } else {
      assert x % a < a;
    }
  }

  lemma Remainder(x: nat, a: nat)
    requires x < a
    ensures x % a == x
  {
  }

  /** Multiples of `a` differ by a multiple of `a`. */
  lemma Difference(x: nat, y: nat, a: nat)
    requires a > 0 && y <= x && x % a == 0 && y % a == 0
    ensures (x - y) % a == 0
  {
    assert x == x / a * a && y == y / a * a;
    assert x - y == (x / a - y / a) * a;
    MultipleOf(x / a - y / a, a);
  }

  lemma MultipleOf(q: int, a: int)
    requires a > 0
    ensures (q * a) % a == 0
  {
    var d := (q * a) / a;
    var m := (q * a) % a;
    assert (q - d) * a == m;
    if m != 0 {
      if q > d { MulAtLeast(1, q - d, a); } else { MulAtLeast(q - d, 0, a); }
    }
  }

  lemma MulAtLeast(x: int, y: int, a: int)
    requires x <= y && a >= 0
    ensures x * a <= y * a
  {
  }

  /** Bytes between two objects of a slab. */
  function ObjMemSz(objSz: nat, line: nat): nat
    requires objSz < WORD && line > 0
  {
    RoundUp((objSz + HEADER) % WORD, line)
  }

  /** Objects per slab, at a given spacing. */
  function MaxObjs(stride: nat, allocSz: nat, headOff: nat): nat
    requires stride > 0 && headOff <= allocSz
  {
    (allocSz - headOff) / stride
  }

  lemma Fits(objSz: nat, line: nat, allocSz: nat, headOff: nat)
    requires 0 < line <= WORD && WORD % line == 0 && objSz + HEADER <= WORD - line
    requires ObjMemSz(objSz, line) + headOff <= allocSz
    ensures ObjMemSz(objSz, line) >= objSz + HEADER
    ensures MaxObjs(ObjMemSz(objSz, line), allocSz, headOff) > 0
    ensures MaxObjs(ObjMemSz(objSz, line), allocSz, headOff) * ObjMemSz(objSz, line) + headOff <= allocSz
  {
    hide RoundUp;
    RoundUpLeast(objSz + HEADER, line);
    Quotient(allocSz - headOff, ObjMemSz(objSz, line));
  }

  /** The header of the `i`-th object of the slab at `s`. */
  function HeaderAt(s: Addr, headOff: nat, stride: nat, i: nat): Addr {
    s + headOff + i * stride
  }

  lemma HeadersApart(s: Addr, headOff: nat, stride: nat, i: nat, j: nat)
    requires i < j
    ensures HeaderAt(s, headOff, stride, i) + stride <= HeaderAt(s, headOff, stride, j)
  {
    MulAtLeast(i + 1, j, stride);
  }

  lemma HeaderInside(s: Addr, headOff: nat, stride: nat, i: nat, n: nat, allocSz: nat)
    requires i < n && n * stride + headOff <= allocSz
    ensures s + headOff <= HeaderAt(s, headOff, stride, i) && HeaderAt(s, headOff, stride, i) + stride <= s + allocSz
  {
    MulAtLeast(i + 1, n, stride);
  }

  lemma Quotient(a: int, b: int)
    requires 0 < b <= a
    ensures a / b > 0 && a / b * b <= a
  {
  }

  datatype Slab = Slab(owner: nat, item: Addr, freelist: Addr, nfree: int)
  datatype MHead = MHead(slab: Addr, next: Addr, tag: nat)

  /** The first |xs| links from `first` on lead through `xs`.  Where the last one
      leads does not matter. */
  ghost predicate Linked(heads: map<Addr, MHead>, first: Addr, xs: seq<Addr>) {
    (xs != [] ==> first == xs[0]) &&
    (forall x <- xs :: x in heads) &&
    forall i :: 0 <= i < |xs| - 1 ==> heads[xs[i]].next == xs[i + 1]
  }

  /** The header of slab `s` describes `xs` as its free objects, and all the
      headers in `objs` know their slab. */
  ghost predicate Threaded(slab: Slab, s: Addr, heads: map<Addr, MHead>, xs: seq<Addr>, objs: set<Addr>) {
    slab.nfree == |xs| && Linked(heads, slab.freelist, xs) && Distinct(xs) && SetOf(xs) <= objs &&
    forall h <- objs :: h in heads && heads[h].slab == s
  }

  class SlabMemory {
    const allocSz: nat
    const headOff: nat
    const stride: nat
    const cap: nat

    var slabs: map<Addr, Slab>
    var heads: map<Addr, MHead>
    ghost var used: set<Addr>
    ghost var chain: map<Addr, seq<Addr>>

    function Hdr(s: Addr, i: nat): Addr { HeaderAt(s, headOff, stride, i) }

    /** All object headers of slab `s`. */
    ghost function Objs(s: Addr): set<Addr> {
      set i | 0 <= i < cap :: Hdr(s, i)
    }

    predicate ApartAt(s: Addr, t: Addr) {
      s + allocSz <= t || t + allocSz <= s
    }

    ghost predicate Valid() reads this {
      stride >= HEADER && cap > 0 && headOff > 0 && cap * stride + headOff <= allocSz &&
      (forall s <- used :: s in slabs && s in chain && Threaded(slabs[s], s, heads, chain[s], Objs(s))) &&
      forall s <- used, t <- used :: s != t ==> ApartAt(s, t)
    }

    /** An object handed out: in a slab in use, and not on its free list. */
    ghost predicate Live(h: Addr) reads this {
      h in heads && heads[h].slab in used && heads[h].slab in chain &&
      h in Objs(heads[h].slab) && h !in chain[heads[h].slab]
    }

    /** The object slab `s` hands out next. */
    ghost function FirstFree(s: Addr): Addr reads this {
      if s in chain && chain[s] != [] then chain[s][0] else 0
    }

    constructor (objSz: nat, line: nat, allocSz: nat, headOff: nat)
      requires 0 < line <= WORD && WORD % line == 0 && objSz + HEADER <= WORD - line
      requires 0 < headOff && ObjMemSz(objSz, line) + headOff <= allocSz
      ensures Valid() && used == {} && this.allocSz == allocSz && this.headOff == headOff
      ensures stride == ObjMemSz(objSz, line) >= objSz + HEADER && cap == MaxObjs(stride, allocSz, headOff)
    {
      hide ObjMemSz, MaxObjs, Threaded;
      Fits(objSz, line, allocSz, headOff);
      this.allocSz := allocSz;
      this.headOff := headOff;
      stride := ObjMemSz(objSz, line);
      cap := MaxObjs(ObjMemSz(objSz, line), allocSz, headOff);
      slabs, heads := map[], map[];
      used, chain := {}, map[];
      new;
    }

    lemma ObjsDiffer(s: Addr, i: nat, j: nat)
      requires i < j && stride > 0
      ensures Hdr(s, i) < Hdr(s, j)
    {
    }

    /** Headers of slabs that lie apart are different. */
    lemma ObjsDisjoint(s: Addr, t: Addr)
      requires ApartAt(s, t) && cap * stride + headOff <= allocSz && stride > 0
      ensures Objs(s) !! Objs(t)
    {
      forall i: nat, j: nat | i < cap && j < cap ensures Hdr(s, i) != Hdr(t, j) {
        HeaderInside(s, headOff, stride, i, cap, allocSz);
        HeaderInside(t, headOff, stride, j, cap, allocSz);
      }
    }

    /** There are `cap` of them. */
    lemma {:induction false} ObjsCount(s: Addr, n: nat)
      requires stride > 0
      ensures |set i | 0 <= i < n :: Hdr(s, i)| == n
    {
      if n > 0 {
        ObjsCount(s, n - 1);
        var rest := set i | 0 <= i < n - 1 :: Hdr(s, i);
        assert Hdr(s, n - 1) !in rest by {
          forall i | 0 <= i < n - 1 ensures Hdr(s, i) != Hdr(s, n - 1) { ObjsDiffer(s, i, n - 1); }
        }
        assert (set i | 0 <= i < n :: Hdr(s, i)) == rest + {Hdr(s, n - 1)};
      }
    }

    /** The first `n` headers of the chunk know their slab, and all but the last of
        them lead to the next one. */
    ghost predicate CutUpTo(heads: map<Addr, MHead>, s: Addr, n: nat, tag: nat) {
      forall k :: 0 <= k < n ==> Hdr(s, k) in heads && heads[Hdr(s, k)].slab == s && heads[Hdr(s, k)].tag == tag &&
                                 (k + 1 < n ==> heads[Hdr(s, k)].next == Hdr(s, k + 1))
    }

    lemma CutStep(heads: map<Addr, MHead>, s: Addr, n: nat, tag: nat, first: MHead, alloc: Addr, prev: Addr)
      requires stride > 0 && CutUpTo(heads, s, n, tag) && first.slab == s && first.tag == tag
      requires alloc == Hdr(s, n) && prev == if n == 0 then alloc else Hdr(s, n - 1)
      ensures prev in heads[alloc := first]
      ensures var hs := heads[alloc := first]; CutUpTo(hs[prev := hs[prev].(next := alloc)], s, n + 1, tag)
    {
      hide Hdr;
      forall k | 0 <= k < n ensures Hdr(s, k) < alloc { ObjsDiffer(s, k, n); }
      forall k | 0 <= k < n - 1 ensures Hdr(s, k) < prev { ObjsDiffer(s, k, n - 1); }
    }

    /** The loop of __ps_slab_init, which threads the headers of the chunk at `s`.
        The `next` of the last header is never written: it keeps whatever the memory
        held, here `junk`. */
    method ThreadHeaders(s: Addr, tag: nat, junk: Addr)
      requires stride > 0 && cap > 0
      modifies this`heads
      ensures CutUpTo(heads, s, cap, tag)
      ensures forall h ::
                h !in Objs(s) ==> (h in heads <==> h in old(heads)) && (h in heads ==> heads[h] == old(heads)[h])
    {
      hide Hdr, CutUpTo;
      var alloc := Hdr(s, 0);
      var prev := alloc;
      var i := 0;
      NoneCut(heads, s, tag);
      while i < cap
        invariant i <= cap
        invariant alloc == Hdr(s, i) && prev == if i == 0 then alloc else Hdr(s, i - 1)
        invariant CutUpTo(heads, s, i, tag)
        invariant forall h ::
                    h !in Objs(s) ==> (h in heads <==> h in old(heads)) && (h in heads ==> heads[h] == old(heads)[h])
      {
        assert alloc in Objs(s) && prev in Objs(s);
        CutStep(heads, s, i, tag, MHead(s, junk, tag), alloc, prev);
        heads := heads[alloc := MHead(s, junk, tag)];
        heads := heads[prev := heads[prev].(next := alloc)];
        prev := alloc;
        alloc := alloc + stride;
        i := i + 1;
        NextHdr(s, i);
      }
    }

    lemma NoneCut(heads: map<Addr, MHead>, s: Addr, tag: nat)
      ensures CutUpTo(heads, s, 0, tag)
    {
    }

    lemma LiveNotNull(h: Addr)
      requires Valid() && Live(h)
      ensures h != 0
    {
    }

    /** The part of __ps_slab_init that makes the chunk at `s` a slab. */
    method Thread(s: Addr, owner: nat, item: Addr, tag: nat, junk: Addr)
      requires Valid() && s !in used && (forall t <- used :: ApartAt(s, t))
      modifies this
      ensures Valid()
      ensures used == old(used) + {s} && chain == old(chain)[s := seq(cap, i requires 0 <= i => Hdr(s, i))]
      ensures slabs == old(slabs)[s := Slab(owner, item, Hdr(s, 0), cap)]
      ensures forall h :: Live(h) <==> old(Live(h))
      ensures forall h <- Objs(s) :: h in heads && heads[h].tag == tag && !Live(h)
      ensures forall t <- old(used) :: Objs(t) !! Objs(s)
      ensures forall h ::
                h !in Objs(s) ==> (h in heads <==> h in old(heads)) && (h in heads ==> heads[h] == old(heads)[h])
    {
      hide Threaded, Hdr, CutUpTo;
      ghost var free := seq(cap, i requires 0 <= i => Hdr(s, i));
      slabs := slabs[s := Slab(owner, item, Hdr(s, 0), cap)];
      ThreadHeaders(s, tag, junk);
      used := used + {s};
      chain := chain[s := free];
      FreshThreaded(s, heads, slabs[s], free, tag);
      hide Objs;
      forall t <- used | t != s ensures Threaded(slabs[t], t, heads, chain[t], Objs(t)) && Objs(s) !! Objs(t) {
        ObjsDisjoint(s, t);
        ElseThreaded(slabs[t], t, old(heads), heads, chain[t], Objs(t));
      }
      assert forall h <- Objs(s) :: !Live(h) && !old(Live(h));
    }

    lemma NextHdr(s: Addr, i: nat)
      requires i > 0
      ensures Hdr(s, i) == Hdr(s, i - 1) + stride
    {
    }

    lemma FreshThreaded(s: Addr, heads: map<Addr, MHead>, slab: Slab, free: seq<Addr>, tag: nat)
      requires stride > 0 && slab.nfree == cap == |free| > 0 && slab.freelist == Hdr(s, 0)
      requires CutUpTo(heads, s, cap, tag) && forall k :: 0 <= k < cap ==> free[k] == Hdr(s, k)
      ensures Threaded(slab, s, heads, free, Objs(s))
      ensures forall h <- Objs(s) :: h in heads && heads[h].slab == s && heads[h].tag == tag && h in free
    {
      hide Hdr;
      forall i, j | 0 <= i < j < cap ensures free[i] != free[j] { ObjsDiffer(s, i, j); }
      forall k | 0 <= k < cap ensures Hdr(s, k) in free { assert free[k] == Hdr(s, k); }
    }

    /** The first free object of `s` is handed out. */
    method Take(s: Addr, tag: nat) returns (h: Addr)
      requires Valid() && s in used && chain[s] != []
      modifies this
      ensures Valid() && used == old(used)
      ensures h == old(chain)[s][0] && chain == old(chain)[s := old(chain)[s][1..]]
      ensures h in Objs(s) && Live(h) && !old(Live(h)) && forall x :: x != h ==> (Live(x) <==> old(Live(x)))
      ensures h in heads && heads[h] == MHead(s, 0, tag)
      ensures forall x :: x != h ==> (x in heads <==> x in old(heads)) && (x in heads ==> heads[x] == old(heads)[x])
      ensures slabs.Keys == old(slabs).Keys && slabs[s].owner == old(slabs)[s].owner
      ensures slabs[s].item == old(slabs)[s].item
      ensures slabs[s].nfree == old(slabs)[s].nfree - 1 && forall t <- slabs :: t != s ==> slabs[t] == old(slabs)[t]
    {
      hide Threaded;
      TakeThreaded(slabs[s], s, heads, chain[s], Objs(s), tag);
      h := slabs[s].freelist;
      ghost var xs := chain[s];
      slabs := slabs[s := slabs[s].(freelist := heads[h].next, nfree := slabs[s].nfree - 1)];
      heads := heads[h := MHead(heads[h].slab, 0, tag)];
      chain := chain[s := xs[1..]];
      forall t <- used | t != s ensures Threaded(slabs[t], t, heads, chain[t], Objs(t)) {
        ObjsDisjoint(s, t);
        ElseThreaded(slabs[t], t, old(heads), heads, chain[t], Objs(t));
      }
      assert xs == [h] + xs[1..];
    }

    /** An object comes back to the free list of its slab. */
    method Give(h: Addr, tag: nat) returns (s: Addr)
      requires Valid() && Live(h)
      modifies this
      ensures Valid() && used == old(used)
      ensures s == old(heads)[h].slab && s in used && chain == old(chain)[s := [h] + old(chain)[s]]
      ensures !Live(h) && forall x :: x != h ==> (Live(x) <==> old(Live(x)))
      ensures heads.Keys == old(heads).Keys && heads[h].tag == tag && heads[h].slab == s
      ensures forall x <- heads :: x != h ==> heads[x] == old(heads)[x]
      ensures slabs.Keys == old(slabs).Keys && slabs[s].owner == old(slabs)[s].owner
      ensures slabs[s].item == old(slabs)[s].item
      ensures slabs[s].nfree == old(slabs)[s].nfree + 1 && forall t <- slabs :: t != s ==> slabs[t] == old(slabs)[t]
    {
      hide Threaded;
      s := heads[h].slab;
      GiveThreaded(slabs[s], s, heads, chain[s], Objs(s), h, tag);
      heads := heads[h := MHead(s, slabs[s].freelist, tag)];
      slabs := slabs[s := slabs[s].(freelist := h, nfree := slabs[s].nfree + 1)];
      chain := chain[s := [h] + chain[s]];
      forall t <- used | t != s ensures Threaded(slabs[t], t, heads, chain[t], Objs(t)) {
        ObjsDisjoint(s, t);
        ElseThreaded(slabs[t], t, old(heads), heads, chain[t], Objs(t));
      }
    }

    /** The `next` of an object handed out is free for other uses. */
    method SetNext(h: Addr, x: Addr)
      requires Valid() && Live(h)
      modifies this`heads
      ensures Valid() && heads == old(heads)[h := old(heads)[h].(next := x)]
      ensures forall y :: Live(y) <==> old(Live(y))
    {
      hide Threaded;
      var s := heads[h].slab;
      NextThreaded(slabs[s], s, heads, chain[s], Objs(s), h, x);
      forall t <- used | t != s ensures Threaded(slabs[t], t, heads[h := heads[h].(next := x)], chain[t], Objs(t)) {
        ObjsDisjoint(s, t);
        ElseThreaded(slabs[t], t, heads, heads[h := heads[h].(next := x)], chain[t], Objs(t));
      }
      heads := heads[h := heads[h].(next := x)];
    }

    /** A slab all of whose objects are free is given back. */
    ghost method Retire(s: Addr)
      requires Valid() && s in used && slabs[s].nfree == cap
      modifies this`used
      ensures Valid() && used == old(used) - {s}
      ensures forall h :: Live(h) <==> old(Live(h))
    {
      AllFree(s);
      used := used - {s};
    }

    lemma NfreeBound(s: Addr)
      requires Valid() && s in used
      ensures s in slabs && s in chain && slabs[s].nfree == |chain[s]| <= cap
    {
      ObjsCount(s, cap);
      SizeOf(chain[s]);
      SubsetSize(SetOf(chain[s]), Objs(s));
    }

    /** The free list of such a slab holds every one of its objects. */
    lemma AllFree(s: Addr)
      requires Valid() && s in used && slabs[s].nfree == cap
      ensures SetOf(chain[s]) == Objs(s)
    {
      ObjsCount(s, cap);
      SizeOf(chain[s]);
      SameSize(SetOf(chain[s]), Objs(s));
    }

    // ---- conservation ----------------------------------------------------------------

    /** The objects of slab `s` that are handed out. */
    ghost function LiveIn(s: Addr): set<Addr>
      reads this
      requires s in chain
    {
      Objs(s) - SetOf(chain[s])
    }

    ghost function LiveOf(us: set<Addr>): set<Addr> reads this { set s, h | s in us && s in chain && h in LiveIn(s) ::
        h }
    ghost function FreeOf(us: set<Addr>): set<Addr> reads this { set s, h | s in us && s in chain && h in chain[s] ::
        h }
    ghost function AllOf(us: set<Addr>): set<Addr> { set s, h | s in us && h in Objs(s) :: h }

    /** Handed out and free objects of any slabs in use add up to all their
        objects. */
    lemma Conserved(us: set<Addr>)
      requires Valid() && us <= used
      ensures |LiveOf(us)| + |FreeOf(us)| == |us| * cap
      ensures forall h :: h in LiveOf(us) <==> Live(h) && heads[h].slab in us
    {
      AllCount(us);
      LiveOrFree(us);
      LiveIsLive(us);
      DisjointSizes(LiveOf(us), FreeOf(us));
    }

    lemma LiveIsLive(us: set<Addr>)
      requires Valid() && us <= used
      ensures forall h :: h in LiveOf(us) <==> Live(h) && heads[h].slab in us
    {
      hide HeaderAt, Hdr, ApartAt, Linked;
      forall s <- us, h | h in LiveIn(s) ensures Live(h) && heads[h].slab in us {}
      forall h | Live(h) && heads[h].slab in us ensures h in LiveOf(us) { assert h in LiveIn(heads[h].slab); }
    }

    lemma LiveOrFree(us: set<Addr>)
      requires Valid() && us <= used
      ensures LiveOf(us) + FreeOf(us) == AllOf(us) && LiveOf(us) !! FreeOf(us)
    {
      hide HeaderAt, Hdr, ApartAt, Linked;
      forall s <- us, h | h in chain[s] ensures h in Objs(s) && heads[h].slab == s { assert h in SetOf(chain[s]); }
      forall s <- us, h <- Objs(s) ensures heads[h].slab == s && (h in LiveIn(s) || h in chain[s]) {}
      forall s <- us, t <- us, h | h in LiveIn(s) ensures h !in chain[t] { assert h in Objs(s); }
    }

    lemma {:induction false} AllCount(us: set<Addr>)
      requires Valid() && us <= used
      ensures |AllOf(us)| == |us| * cap
      decreases us
    {
      hide Threaded, Hdr, HeaderAt, Objs, ApartAt, AllOf;
      if us == {} {
        NoneOf();
      } else {
        var s :| s in us;
        AllCount(us - {s});
        ObjsCount(s, cap);
        AllSplit(us, s);
        assert Objs(s) == set i | 0 <= i < cap :: Hdr(s, i) by { ObjsIs(s); }
        OneMore(|us| - 1, cap);
      }
    }

    lemma ObjsIs(s: Addr)
      ensures Objs(s) == set i | 0 <= i < cap :: Hdr(s, i)
    {
    }

    lemma NoneOf()
      ensures AllOf({}) == {}
    {
    }

    lemma AllSplit(us: set<Addr>, s: Addr)
      requires Valid() && us <= used && s in us
      ensures |AllOf(us)| == |AllOf(us - {s})| + |Objs(s)|
    {
      hide Threaded, Hdr, HeaderAt, Objs;
      forall t <- us - {s} ensures Objs(t) !! Objs(s) { ObjsDisjoint(t, s); }
      assert AllOf(us) == AllOf(us - {s}) + Objs(s);
      DisjointSizes(AllOf(us - {s}), Objs(s));
    }

    /** Objects handed out never overlap, and lie inside their slab, behind its
        header. */
    lemma LiveApart(h: Addr, g: Addr)
      requires Valid() && Live(h) && Live(g)
      ensures heads[h].slab + headOff <= h && h + stride <= heads[h].slab + allocSz
      ensures h != g ==> h + stride <= g || g + stride <= h
    {
      var s, t := heads[h].slab, heads[g].slab;
      var i: nat :| i < cap && h == Hdr(s, i);
      var j: nat :| j < cap && g == Hdr(t, j);
      HeaderInside(s, headOff, stride, i, cap, allocSz);
      HeaderInside(t, headOff, stride, j, cap, allocSz);
      if s == t && i < j {
        HeadersApart(s, headOff, stride, i, j);
      } else if s == t && j < i {
        HeadersApart(s, headOff, stride, j, i);
      }
    }
  }

  lemma DisjointSizes(a: set<Addr>, b: set<Addr>)
    requires a !! b
    ensures |a + b| == |a| + |b|
  {
  }

  lemma OneMore(n: int, a: int)
    ensures (n + 1) * a == n * a + a
  {
  }

  lemma SizeOf(xs: seq<Addr>)
    requires Distinct(xs)
    ensures |SetOf(xs)| == |xs|
  {
    if xs != [] {
      SizeOf(xs[1..]);
      assert xs == [xs[0]] + xs[1..];
      assert SetOf(xs) == SetOf(xs[1..]) + {xs[0]};
    }
  }

  lemma SubsetSize(a: set<Addr>, b: set<Addr>)
    requires a <= b
    ensures |a| <= |b|
  {
    assert b == a + (b - a);
  }

  lemma SameSize(a: set<Addr>, b: set<Addr>)
    requires a <= b && |a| == |b|
    ensures a == b
  {
    assert b == a + (b - a);
    assert |b - a| == 0;
  }

  lemma ElseThreaded(slab: Slab, s: Addr, heads: map<Addr, MHead>, heads': map<Addr, MHead>, xs: seq<Addr>,
      objs: set<Addr>)
    requires Threaded(slab, s, heads, xs, objs)
    requires forall h <- objs :: h in heads ==> h in heads' && heads'[h] == heads[h]
    ensures Threaded(slab, s, heads', xs, objs)
  {
  }

  lemma NextThreaded(slab: Slab, s: Addr, heads: map<Addr, MHead>, xs: seq<Addr>, objs: set<Addr>, h: Addr, x: Addr)
    requires Threaded(slab, s, heads, xs, objs) && h in heads && h !in xs
    ensures Threaded(slab, s, heads[h := heads[h].(next := x)], xs, objs)
  {
  }

  lemma TakeThreaded(slab: Slab, s: Addr, heads: map<Addr, MHead>, xs: seq<Addr>, objs: set<Addr>, tag: nat)
    requires Threaded(slab, s, heads, xs, objs) && xs != []
    ensures slab.freelist == xs[0] && xs[0] in objs && xs[0] in heads && heads[xs[0]].slab == s && xs[0] !in xs[1..]
    ensures Threaded(slab.(freelist := heads[xs[0]].next, nfree := slab.nfree - 1), s,
                heads[xs[0] := MHead(s, 0, tag)], xs[1..], objs)
  {
  }

  lemma GiveThreaded(slab: Slab, s: Addr, heads: map<Addr, MHead>, xs: seq<Addr>, objs: set<Addr>, h: Addr, tag: nat)
    requires Threaded(slab, s, heads, xs, objs) && h in objs && h !in xs
    ensures Threaded(slab.(freelist := h, nfree := slab.nfree + 1), s, heads[h := MHead(s, slab.freelist, tag)], [h] +
                xs, objs)
  {
  }
}
