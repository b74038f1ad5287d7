/** The slab allocator of one node: slabs with free objects on one list, full
    slabs on another, and chunks from the pool. */
module BiSlab {
  import opened Common
  import opened PsList
  import opened MemMgr
  import opened SlabMemory

  const CACHE_LINE: nat := 64
  const SLAB_HEADER: nat := 128      // sizeof(struct ps_slab)

  /** What bi_slab_create asserts of an object size. */
  predicate Accepted(objSz: nat)
    requires objSz < WORD
  {
    ObjMemSz(objSz, CACHE_LINE) < MEM_MGR_OBJ_SZ
  }

  /** A slab has room for an object with its header. */
  predicate Holds(objSz: nat)
    requires objSz < WORD
  {
    objSz + HEADER <= ObjMemSz(objSz, CACHE_LINE) <= MEM_MGR_OBJ_SZ - SLAB_HEADER
  }

  /** The spacing of objects, over all sizes: right until it reaches the top of
      the word, then zero, then too small. */
  lemma Spacing(objSz: nat)
    requires objSz < WORD
    ensures objSz + HEADER <= WORD - CACHE_LINE ==>
              objSz + HEADER <= ObjMemSz(objSz, CACHE_LINE) < objSz + HEADER + CACHE_LINE
    ensures WORD - CACHE_LINE < objSz + HEADER <= WORD ==> ObjMemSz(objSz, CACHE_LINE) == 0
    ensures WORD < objSz + HEADER ==> ObjMemSz(objSz, CACHE_LINE) == CACHE_LINE
    ensures ObjMemSz(objSz, CACHE_LINE) % CACHE_LINE == 0
  {
    hide RoundUp;
    assert WORD % CACHE_LINE == 0;
    RoundUpLeast((objSz + HEADER) % WORD, CACHE_LINE);
    if objSz + HEADER >= WORD {
      assert (objSz + HEADER) % WORD == objSz + HEADER - WORD;
    }
  }

  /** The sizes the assertion at creation lets through. */
  lemma AcceptedExactly(objSz: nat)
    requires objSz < WORD
    ensures Accepted(objSz) <==> objSz + HEADER <= MEM_MGR_OBJ_SZ - CACHE_LINE || objSz + HEADER > WORD - CACHE_LINE
  {
    hide ObjMemSz;
    Spacing(objSz);
  }

  /** Of these, the sizes for which a slab has room. */
  lemma AcceptedFits(objSz: nat)
    requires objSz < WORD && Accepted(objSz)
    ensures Holds(objSz) <==> objSz + HEADER <= MEM_MGR_OBJ_SZ - SLAB_HEADER
    ensures Holds(objSz) ==> MaxObjs(ObjMemSz(objSz, CACHE_LINE), MEM_MGR_OBJ_SZ, SLAB_HEADER) > 0
  {
    hide ObjMemSz;
    Spacing(objSz);
    AcceptedExactly(objSz);
    if Holds(objSz) {
      Fits(objSz, CACHE_LINE, MEM_MGR_OBJ_SZ, SLAB_HEADER);
    }
  }

  /** Sizes of the three families that pass the assertion and have no room: a
      slab of no objects, a division by zero, and slots of 64 bytes. */
  lemma AcceptedWithoutRoom()
    ensures Accepted(1048425) && MaxObjs(ObjMemSz(1048425, CACHE_LINE), MEM_MGR_OBJ_SZ, SLAB_HEADER) == 0
    ensures Accepted(WORD - 24) && ObjMemSz(WORD - 24, CACHE_LINE) == 0
    ensures Accepted(WORD - 1) && ObjMemSz(WORD - 1, CACHE_LINE) == CACHE_LINE
  {
    hide ObjMemSz;
    Spacing(1048425);
    Spacing(WORD - 24);
    Spacing(WORD - 1);
  }

  /** The slabs in use are on the list their free count asks for. */
  ghost predicate Sorted(slabs: map<Addr, Slab>, used: set<Addr>, flq: seq<Addr>, elq: seq<Addr>) {
    SetOf(flq) + SetOf(elq) == used && SetOf(flq) !! SetOf(elq) &&
    forall s <- used :: s in slabs && (s in flq <==> slabs[s].nfree > 0)
  }

  /** Every slab in use is the chunk of the pool item it remembers, and that item
      is handed out. */
  ghost predicate Backed(slabs: map<Addr, Slab>, used: set<Addr>, out: set<Addr>, addr: map<Addr, Addr>) {
    forall s <- used :: s in slabs && slabs[s].item in out && slabs[s].item in addr && addr[slabs[s].item] == s
  }

  /** The free counts of the slabs in use keep their sign, except that of `s`. */
  ghost predicate CountsKept(slabs: map<Addr, Slab>, slabs': map<Addr, Slab>, used: set<Addr>, s: Addr) {
    forall t <- used ::
      t in slabs && t in slabs' && slabs'[t].item == slabs[t].item && (t != s ==> slabs'[t].nfree == slabs[t].nfree)
  }

  lemma SortedNew(slabs: map<Addr, Slab>, slabs': map<Addr, Slab>, used: set<Addr>, flq: seq<Addr>, elq: seq<Addr>,
      s: Addr)
    requires Sorted(slabs, used, flq, elq) && CountsKept(slabs, slabs', used, s)
    requires s !in used && s in slabs' && slabs'[s].nfree > 0
    ensures s !in flq && s !in elq && s !in SetOf(elq) && SetOf(flq) !! SetOf(elq)
    ensures Sorted(slabs', used + {s}, Added(flq, s), elq)
  {
  }

  lemma SortedSame(slabs: map<Addr, Slab>, slabs': map<Addr, Slab>, used: set<Addr>, flq: seq<Addr>, elq: seq<Addr>,
      s: Addr)
    requires Sorted(slabs, used, flq, elq) && CountsKept(slabs, slabs', used, s)
    requires s in used && (slabs[s].nfree > 0 <==> slabs'[s].nfree > 0)
    ensures Sorted(slabs', used, flq, elq)
  {
  }

  /** A slab moves from fl to el when its last free object goes. */
  lemma SortedFull(slabs: map<Addr, Slab>, slabs': map<Addr, Slab>, used: set<Addr>, flq: seq<Addr>, elq: seq<Addr>,
      s: Addr, k: nat)
    requires Sorted(slabs, used, flq, elq) && CountsKept(slabs, slabs', used, s) && s in used && slabs'[s].nfree == 0
    requires k < |flq| && flq[k] == s && Distinct(flq)
    ensures s !in elq && s !in Without(flq, k) && SetOf(elq) !! SetOf(Without(flq, k))
    ensures Sorted(slabs', used, Without(flq, k), Added(elq, s))
  {
    assert s in SetOf(flq) && s !in SetOf(elq);
    WithoutSet(flq, k);
    AddedSet(elq, s);
    assert forall t :: t in Without(flq, k) <==> t in SetOf(Without(flq, k));
    assert forall t :: t in flq <==> t in SetOf(flq);
  }

  /** And back when one returns. */
  lemma SortedBack(slabs: map<Addr, Slab>, slabs': map<Addr, Slab>, used: set<Addr>, flq: seq<Addr>, elq: seq<Addr>,
      s: Addr, k: nat)
    requires Sorted(slabs, used, flq, elq) && CountsKept(slabs, slabs', used, s) && s in used && slabs'[s].nfree > 0
    requires k < |elq| && elq[k] == s && Distinct(elq)
    ensures s !in flq && s !in Without(elq, k) && SetOf(flq) !! SetOf(Without(elq, k))
    ensures Sorted(slabs', used, Added(flq, s), Without(elq, k))
  {
    assert s in SetOf(elq) && s !in SetOf(flq);
    WithoutSet(elq, k);
    AddedSet(flq, s);
    assert forall t :: t in Added(flq, s) <==> t in SetOf(Added(flq, s));
    assert forall t :: t in flq <==> t in SetOf(flq);
  }

  /** A slab leaves the list it is on. */
  lemma SortedGone(slabs: map<Addr, Slab>, slabs': map<Addr, Slab>, used: set<Addr>, flq: seq<Addr>, elq: seq<Addr>,
      s: Addr, k: nat)
    requires Sorted(slabs, used, flq, elq) && CountsKept(slabs, slabs', used, s) && s in used && Distinct(flq)
    requires Distinct(elq)
    ensures k < |flq| && flq[k] == s ==> Sorted(slabs', used - {s}, Without(flq, k), elq)
    ensures k < |elq| && elq[k] == s ==> Sorted(slabs', used - {s}, flq, Without(elq, k))
  {
    assert forall t :: t in flq <==> t in SetOf(flq);
    assert forall t :: t in elq <==> t in SetOf(elq);
    if k < |flq| && flq[k] == s {
      WithoutSet(flq, k);
      assert forall t :: t in Without(flq, k) <==> t in SetOf(Without(flq, k));
    }
    if k < |elq| && elq[k] == s {
      WithoutSet(elq, k);
    }
  }

  lemma HeadUsed(slabs: map<Addr, Slab>, used: set<Addr>, flq: seq<Addr>, elq: seq<Addr>, s: Addr)
    requires Sorted(slabs, used, flq, elq) && s in flq
    ensures s in used && s in slabs && slabs[s].nfree > 0 && s !in elq && SetOf(flq) !! SetOf(elq)
  {
  }

  lemma ListsApart(slabs: map<Addr, Slab>, used: set<Addr>, flq: seq<Addr>, elq: seq<Addr>)
    requires Sorted(slabs, used, flq, elq)
    ensures SetOf(flq) !! SetOf(elq) && SetOf(elq) !! SetOf(flq)
  {
  }

  lemma OnOneList(slabs: map<Addr, Slab>, used: set<Addr>, flq: seq<Addr>, elq: seq<Addr>, s: Addr)
    requires Sorted(slabs, used, flq, elq) && s in used
    ensures s in slabs && (s in flq <==> slabs[s].nfree > 0) && (s in elq <==> slabs[s].nfree <= 0)
  {
  }

  lemma BackedNew(slabs: map<Addr, Slab>, slabs': map<Addr, Slab>, used: set<Addr>, out: set<Addr>,
      addr: map<Addr, Addr>, s: Addr)
    requires Backed(slabs, used, out, addr) && CountsKept(slabs, slabs', used, s)
    requires s in slabs' && slabs'[s].item in out && slabs'[s].item in addr && addr[slabs'[s].item] == s
    ensures Backed(slabs', used + {s}, out, addr)
  {
  }

  lemma BackedLess(slabs: map<Addr, Slab>, used: set<Addr>, out: set<Addr>, addr: map<Addr, Addr>, s: Addr)
    requires Backed(slabs, used, out, addr) && s in used
    ensures slabs[s].item in out && Backed(slabs, used - {s}, out - {slabs[s].item}, addr)
  {
  }

  ghost function HeldBy(slabs: map<Addr, Slab>, used: set<Addr>): set<Addr> {
    set s | s in used && s in slabs :: slabs[s].item
  }

  lemma HeldKept(slabs: map<Addr, Slab>, slabs': map<Addr, Slab>, used: set<Addr>, s: Addr)
    requires CountsKept(slabs, slabs', used, s)
    ensures HeldBy(slabs', used) == HeldBy(slabs, used)
  {
  }

  lemma HeldNew(slabs: map<Addr, Slab>, used: set<Addr>, s: Addr, out: set<Addr>)
    requires s in slabs && slabs[s].item !in out
    ensures out + {slabs[s].item} - HeldBy(slabs, used + {s}) == out - HeldBy(slabs, used)
  {
  }

  lemma HeldGone(slabs: map<Addr, Slab>, used: set<Addr>, out: set<Addr>, addr: map<Addr, Addr>, s: Addr)
    requires Backed(slabs, used, out, addr) && s in used
    ensures out - {slabs[s].item} - HeldBy(slabs, used - {s}) == out - HeldBy(slabs, used)
  {
  }

  lemma BackedKept(slabs: map<Addr, Slab>, slabs': map<Addr, Slab>, used: set<Addr>, out: set<Addr>,
      addr: map<Addr, Addr>, s: Addr)
    requires Backed(slabs, used, out, addr) && CountsKept(slabs, slabs', used, s)
    ensures Backed(slabs', used, out, addr)
  {
  }

  class SlabInfo {
    const mem: SlabMemory
    const links: LinkMemory            // the list field of every slab
    const pool: Pool
    const fl: Freelist                 // slabs with free objects
    const el: Freelist                 // slabs without
    var nslabs: int
    ghost var flq: seq<Addr>
    ghost var elq: seq<Addr>

    /** Between the steps of an operation. */
    ghost predicate Core() reads this, mem, links, pool, pool.links, fl, el {
      links != pool.links && fl != el && mem.allocSz == MEM_MGR_OBJ_SZ &&
      mem.Valid() && pool.Valid() && 0 !in pool.addr.Keys &&
      fl.Holds(links, flq) && el.Holds(links, elq) && nslabs == |mem.used| &&
      Sorted(mem.slabs, mem.used, flq, elq) && Backed(mem.slabs, mem.used, pool.out, pool.addr)
    }

    /** Between operations: fl holds exactly the slabs that are partly free, el
        exactly those with nothing free, and there are no others. */
    ghost predicate Valid() reads this, mem, links, pool, pool.links, fl, el {
      Core() && forall s <- mem.used :: s in mem.slabs && mem.slabs[s].nfree < mem.cap
    }

    /** The pool items this allocator holds. */
    ghost function Held(): set<Addr> reads this, mem {
      HeldBy(mem.slabs, mem.used)
    }

    /** bi_slab_create */
    constructor (objSz: nat, pool: Pool)
      requires pool.Valid() && 0 !in pool.addr.Keys
      requires objSz < WORD && Accepted(objSz) && Holds(objSz)
      ensures Valid() && fresh(mem) && fresh(links) && fresh(fl) && fresh(el) && this.pool == pool
      ensures mem.used == {} && flq == []
      ensures mem.cap == MaxObjs(ObjMemSz(objSz, CACHE_LINE), MEM_MGR_OBJ_SZ, SLAB_HEADER)
    {
      hide ObjMemSz, MaxObjs, Pool.Valid, SlabMemory.Valid;
      Spacing(objSz);
      AcceptedExactly(objSz);
      assert WORD % CACHE_LINE == 0;
      mem := new SlabMemory(objSz, CACHE_LINE, MEM_MGR_OBJ_SZ, SLAB_HEADER);
      links := new LinkMemory();
      this.pool := pool;
      fl := new Freelist();
      el := new Freelist();
      nslabs := 0;
      flq, elq := [], [];
    }

    /** __ps_slab_init: a fresh chunk becomes the first slab of fl. */
    method Init(s: Addr, item: Addr, junk: Addr)
      requires Core() && item in pool.out && item in pool.addr && pool.addr[item] == s && s != 0
      requires s !in mem.used && forall t <- mem.used :: mem.ApartAt(s, t)
      modifies this`flq, this`nslabs, mem, links, fl
      ensures Core() && mem.used == old(mem.used) + {s} && fl.list == s
      ensures s in mem.slabs && mem.slabs[s].nfree == mem.cap && mem.slabs[s].item == item
      ensures CountsKept(old(mem.slabs), mem.slabs, old(mem.used), s)
      ensures forall h :: mem.Live(h) <==> old(mem.Live(h))
    {
      hide IsRing, Distinct, SameOutside, SlabMemory.Valid, SlabMemory.Live, SlabMemory.ApartAt, Pool.Valid, Sorted;
      hide Backed, SetOf, Heads;
      Known();
      mem.Thread(s, 0, item, 0, junk);
      BackedNew(old(mem.slabs), mem.slabs, old(mem.used), pool.out, pool.addr, s);
      Link(s, old(mem.slabs), old(mem.used));
      nslabs := nslabs + 1;
    }

    method Link(s: Addr, ghost slabs: map<Addr, Slab>, ghost used: set<Addr>)
      requires fl != el && fl.Holds(links, flq) && el.Holds(links, elq) && s != 0
      requires Sorted(slabs, used, flq, elq) && CountsKept(slabs, mem.slabs, used, s)
      requires s !in used && s in mem.slabs && mem.slabs[s].nfree > 0
      modifies this`flq, links, fl
      ensures fl.Holds(links, flq) && el.Holds(links, elq) && fl.list == s
      ensures Sorted(mem.slabs, used + {s}, flq, elq)
    {
      hide IsRing, Distinct, SameOutside, Sorted, SetOf, CountsKept, Heads;
      SortedNew(slabs, mem.slabs, used, flq, elq, s);
      InitKeepsHeads(fl.list, links.n, links.p, flq, s);
      InitKeepsHeads(el.list, links.n, links.p, elq, s);
      links.Init(s);
      AddTo(links, fl, el, s, flq, elq);
      HeadIn(fl.list, links.n, links.p, Added(flq, s));
      flq := Added(flq, s);
    }

    lemma Known()
      requires Core()
      ensures mem.cap > 0 && forall s <- mem.used :: s in mem.slabs
    {
    }

    /** A slab whose last free object went moves from fl to el. */
    method MoveToEl(s: Addr, ghost slabs: map<Addr, Slab>)
      requires links != pool.links && fl != el && s != 0 && s in flq
      requires fl.Holds(links, flq) && el.Holds(links, elq)
      requires Sorted(slabs, mem.used, flq, elq) && CountsKept(slabs, mem.slabs, mem.used, s) && s in mem.used
      requires mem.slabs[s].nfree == 0
      modifies this`flq, this`elq, links, fl, el
      ensures fl.Holds(links, flq) && el.Holds(links, elq) && Sorted(mem.slabs, mem.used, flq, elq)
    {
      hide IsRing, Distinct, SameOutside, Sorted, Heads, SetOf, CountsKept;
      IsDistinct(fl.list, links.n, links.p, flq);
      HeadUsed(slabs, mem.used, flq, elq, s);
      ghost var k := RemFrom(links, fl, el, s, flq, elq);
      SortedFull(slabs, mem.slabs, mem.used, flq, elq, s, k);
      flq := Without(flq, k);
      AddTo(links, el, fl, s, elq, flq);
      elq := Added(elq, s);
    }

    /** The part of the allocation after a slab has been found. */
    method TakeFrom(s: Addr, now: nat) returns (h: Addr)
      requires Core() && fl.list == s && s != 0
      requires forall t <- mem.used :: t in mem.slabs && (t != s ==> mem.slabs[t].nfree < mem.cap)
      modifies this`flq, this`elq, mem, links, fl, el
      ensures Valid() && mem.used == old(mem.used) && Held() == old(Held())
      ensures h != 0 && h in mem.heads && mem.heads[h].slab == s && s in mem.used
      ensures mem.Live(h) && !old(mem.Live(h)) && forall x :: x != h ==> (mem.Live(x) <==> old(mem.Live(x)))
      ensures h == old(mem.FirstFree(s))
      ensures mem.heads[h] == MHead(s, 0, now)
    {
      hide IsRing, Distinct, SameOutside, SlabMemory.Valid, SlabMemory.Live, SlabMemory.Objs, Pool.Valid;
      hide Sorted, Backed, Heads, SetOf, HeldBy;
      HeadIn(s, links.n, links.p, flq);
      HeadUsed(mem.slabs, mem.used, flq, elq, s);
      mem.NfreeBound(s);
      h := mem.Take(s, now);
      mem.LiveNotNull(h);
      BackedKept(old(mem.slabs), mem.slabs, mem.used, pool.out, pool.addr, s);
      HeldKept(old(mem.slabs), mem.slabs, mem.used, s);
      if mem.slabs[s].nfree == 0 {
        MoveToEl(s, old(mem.slabs));
      } else {
        SortedSame(old(mem.slabs), mem.slabs, mem.used, flq, elq, s);
      }
    }

    /** A chunk from the pool, made into a slab; NULL when there is none. */
    method Grow(junk: Addr) returns (s: Addr)
      requires Core()
      modifies this`flq, this`nslabs, mem, links, fl, pool`items, pool`out, pool.links
      ensures Core()
      ensures s == 0 <==> old(pool.items) == []
      ensures s == 0 ==>
                mem.used == old(mem.used) && mem.slabs == old(mem.slabs) && flq == old(flq) && pool.out == old(pool.out)
      ensures s != 0 ==> s !in old(mem.used) && mem.used == old(mem.used) + {s} && fl.list == s && s in mem.slabs
      ensures pool.out - Held() == old(pool.out - Held())
      ensures CountsKept(old(mem.slabs), mem.slabs, old(mem.used), s)
      ensures forall h :: mem.Live(h) <==> old(mem.Live(h))
    {
      hide IsRing, Distinct, SameOutside, SlabMemory.Valid, SlabMemory.Live, Pool.Valid, Sorted, Heads, SetOf, HeldBy;
      var item := pool.Alloc();
      if item == 0 {
        return 0;
      }
      FreshChunk(item, old(pool.out));
      s := pool.addr[item];
      Init(s, item, junk);
      HeldKept(old(mem.slabs), mem.slabs, old(mem.used), s);
      HeldNew(mem.slabs, old(mem.used), s, old(pool.out));
    }

    /** The chunk of an item nobody held is apart from every slab. */
    lemma FreshChunk(item: Addr, out: set<Addr>)
      requires pool.Valid() && mem.allocSz == MEM_MGR_OBJ_SZ && item in pool.addr && item !in out
      requires Backed(mem.slabs, mem.used, out, pool.addr)
      ensures pool.addr[item] != 0 && pool.addr[item] !in mem.used
      ensures forall t <- mem.used :: mem.ApartAt(pool.addr[item], t)
    {
    }

    /** bi_slab_alloc: the header of an object that was free.  NULL when the pool
        is exhausted, where the original stops at an assertion. */
    method Alloc(now: nat, junk: Addr) returns (h: Addr)
      requires Valid()
      modifies this`flq, this`elq, this`nslabs, mem, links, fl, el, pool`items, pool`out, pool.links
      ensures Valid()
      ensures h == 0 <==> old(flq) == [] && old(pool.items) == []
      ensures h == 0 ==> forall x :: mem.Live(x) <==> old(mem.Live(x))
      ensures h != 0 ==> mem.Live(h) && !old(mem.Live(h)) && forall x :: x != h ==> (mem.Live(x) <==> old(mem.Live(x)))
      ensures h != 0 ==> h in mem.heads && mem.used == old(mem.used) + {mem.heads[h].slab}
      ensures pool.out - Held() == old(pool.out - Held())
      ensures old(flq) != [] ==> mem.used == old(mem.used) && pool.out == old(pool.out)
      ensures old(flq) != [] ==> h == old(mem.FirstFree(flq[0]))
      ensures h != 0 ==> mem.heads[h].next == 0 && mem.heads[h].tag == now
    {
      hide IsRing, Distinct, SameOutside, SlabMemory.Valid, SlabMemory.Live, SlabMemory.Objs, Pool.Valid;
      hide Sorted, Backed, Heads, SetOf, HeldBy, CountsKept;
      var s := fl.list;
      HeadIn(s, links.n, links.p, flq);
      if s == 0 {
        h := AllocFresh(now, junk);
      } else {
        h := TakeFrom(s, now);
      }
    }

    /** The allocation when fl is empty. */
    method AllocFresh(now: nat, junk: Addr) returns (h: Addr)
      requires Valid()
      modifies this`flq, this`elq, this`nslabs, mem, links, fl, el, pool`items, pool`out, pool.links
      ensures Valid()
      ensures h == 0 <==> old(pool.items) == []
      ensures h == 0 ==> forall x :: mem.Live(x) <==> old(mem.Live(x))
      ensures h != 0 ==> mem.Live(h) && !old(mem.Live(h)) && forall x :: x != h ==> (mem.Live(x) <==> old(mem.Live(x)))
      ensures h != 0 ==> h in mem.heads && mem.used == old(mem.used) + {mem.heads[h].slab}
      ensures pool.out - Held() == old(pool.out - Held())
      ensures h != 0 ==> mem.heads[h].next == 0 && mem.heads[h].tag == now
    {
      hide IsRing, Distinct, SameOutside, SlabMemory.Valid, SlabMemory.Live, SlabMemory.Objs, Pool.Valid;
      hide Sorted, Backed, Heads, SetOf, HeldBy;
      var s := Grow(junk);
      if s == 0 {
        return 0;
      }
      h := TakeFrom(s, now);
    }

    /** A slab with a first free object again moves from el to fl. */
    method MoveToFl(s: Addr, ghost slabs: map<Addr, Slab>)
      requires links != pool.links && fl != el && s != 0 && s in elq
      requires fl.Holds(links, flq) && el.Holds(links, elq)
      requires Sorted(slabs, mem.used, flq, elq) && CountsKept(slabs, mem.slabs, mem.used, s) && s in mem.used
      requires mem.slabs[s].nfree > 0
      modifies this`flq, this`elq, links, fl, el
      ensures fl.list == s && fl.Holds(links, flq) && el.Holds(links, elq) && Sorted(mem.slabs, mem.used, flq, elq)
    {
      hide IsRing, Distinct, SameOutside, Sorted, Heads, SetOf, CountsKept;
      IsDistinct(el.list, links.n, links.p, elq);
      ListsApart(slabs, mem.used, flq, elq);
      ghost var k := RemFrom(links, el, fl, s, elq, flq);
      SortedBack(slabs, mem.slabs, mem.used, flq, elq, s, k);
      elq := Without(elq, k);
      AddTo(links, fl, el, s, flq, elq);
      flq := Added(flq, s);
    }

    lemma LiveSlab(h: Addr)
      requires Core() && mem.Live(h)
      ensures h in mem.heads && mem.heads[h].slab in mem.used && mem.heads[h].slab in mem.slabs
      ensures mem.heads[h].slab != 0
      ensures mem.heads[h].slab in flq <==> mem.slabs[mem.heads[h].slab].nfree > 0
      ensures mem.heads[h].slab in elq <==> mem.slabs[mem.heads[h].slab].nfree <= 0
    {
    }

    /** The only slab in use, when it is full, is the first of el. */
    lemma Single(h: Addr)
      requires Valid() && mem.cap == 1 && mem.Live(h) && mem.used == {mem.heads[h].slab}
      ensures el.list == mem.heads[h].slab != 0
    {
      var s := mem.heads[h].slab;
      LiveSlab(h);
      HeadIn(el.list, links.n, links.p, elq);
      assert forall t :: t in elq <==> t in SetOf(elq);
    }

    /** A list that starts outside the slabs in use is no list of slabs. */
    lemma Dangling(s: Addr)
      requires s !in mem.used && s != 0 && Sorted(mem.slabs, mem.used, flq, elq)
      ensures el.Holds(links, elq) ==> el.list != s
    {
    }

    /** A slab all of whose objects are free leaves fl.  With one object per slab it
        was never moved to fl, and it is el's ring that it leaves. */
    method Unlink(s: Addr, ghost slabs: map<Addr, Slab>)
      requires fl != el && s in mem.used && mem.cap > 0
      requires fl.Holds(links, flq) && el.Holds(links, elq)
      requires Sorted(slabs, mem.used, flq, elq) && CountsKept(slabs, mem.slabs, mem.used, s) && s in slabs
      requires slabs[s].nfree == mem.cap - 1
      modifies this`flq, this`elq, links, fl, el
      ensures Sorted(mem.slabs, mem.used - {s}, flq, elq)
      ensures fl.Holds(links, flq) && el.list == old(el.list)
      ensures mem.cap > 1 || old(el.list) != s ==> el.Holds(links, elq)
    {
      hide IsRing, Distinct, SameOutside, Sorted, Heads, SetOf, CountsKept, Without;
      IsDistinct(fl.list, links.n, links.p, flq);
      IsDistinct(el.list, links.n, links.p, elq);
      ListsApart(slabs, mem.used, flq, elq);
      OnOneList(slabs, mem.used, flq, elq, s);
      ghost var k;
      if mem.cap > 1 {
        k := RemFrom(links, fl, el, s, flq, elq);
        SortedGone(slabs, mem.slabs, mem.used, flq, elq, s, k);
        flq := Without(flq, k);
      } else {
        k := RemOther(links, fl, el, s, flq, elq);
        SortedGone(slabs, mem.slabs, mem.used, flq, elq, s, k);
        elq := Without(elq, k);
      }
    }

    /** Such a slab's chunk goes back to the pool. */
    method Return(s: Addr)
      requires links != pool.links && mem.Valid() && pool.Valid() && s in mem.used && s in mem.slabs
      requires mem.slabs[s].nfree == mem.cap
      requires nslabs == |mem.used| && Backed(mem.slabs, mem.used, pool.out, pool.addr)
      modifies this`nslabs, mem`used, pool`items, pool`out, pool.links
      ensures mem.Valid() && pool.Valid() && mem.used == old(mem.used) - {s}
      ensures forall h :: mem.Live(h) <==> old(mem.Live(h))
      ensures nslabs == |mem.used| && Backed(mem.slabs, mem.used, pool.out, pool.addr)
      ensures pool.items == old(pool.items) + [mem.slabs[s].item]
      ensures pool.out - Held() == old(pool.out - Held())
    {
      hide SlabMemory.Valid, SlabMemory.Live, Pool.Valid, Backed, HeldBy;
      BackedLess(mem.slabs, mem.used, pool.out, pool.addr, s);
      HeldGone(mem.slabs, mem.used, pool.out, pool.addr, s);
      nslabs := nslabs - 1;
      mem.Retire(s);
      pool.Free(mem.slabs[s].item);
    }

    /** The slab leaves the lists, and its chunk goes back. */
    method GiveBack(s: Addr, ghost slabs: map<Addr, Slab>)
      requires links != pool.links && fl != el && mem.allocSz == MEM_MGR_OBJ_SZ && 0 !in pool.addr.Keys
      requires mem.Valid() && pool.Valid() && s in mem.used && s != 0 && mem.cap > 0
      requires fl.Holds(links, flq) && el.Holds(links, elq) && nslabs == |mem.used|
      requires Sorted(slabs, mem.used, flq, elq) && CountsKept(slabs, mem.slabs, mem.used, s)
      requires s in slabs && s in mem.slabs && slabs[s].nfree + 1 == mem.slabs[s].nfree == mem.cap
      requires forall t <- mem.used :: slabs[t].nfree < mem.cap
      requires Backed(mem.slabs, mem.used, pool.out, pool.addr)
      modifies this`flq, this`elq, this`nslabs, mem`used, links, fl, el, pool`items, pool`out, pool.links
      ensures Valid() <==> mem.cap > 1 || old(el.list) != s
      ensures !Valid() ==> el.list == s && mem.slabs[s].item in pool.items
      ensures mem.Valid() && pool.Valid() && pool.out - Held() == old(pool.out - Held())
      ensures mem.used == old(mem.used) - {s} && forall x :: mem.Live(x) <==> old(mem.Live(x))
    {
      hide IsRing, Distinct, SameOutside, SlabMemory.Valid, SlabMemory.Live, Pool.Valid, Sorted, Backed, Heads, SetOf;
      hide HeldBy;
      Unlink(s, slabs);
      Return(s);
      Dangling(s);
    }

    /** The lists and the pool catch up with a freed object of slab `s`. */
    method Settle(s: Addr, ghost slabs: map<Addr, Slab>)
      requires links != pool.links && fl != el && mem.allocSz == MEM_MGR_OBJ_SZ && 0 !in pool.addr.Keys
      requires mem.Valid() && pool.Valid() && s in mem.used && s != 0 && mem.cap > 0
      requires fl.Holds(links, flq) && el.Holds(links, elq) && nslabs == |mem.used|
      requires Sorted(slabs, mem.used, flq, elq) && CountsKept(slabs, mem.slabs, mem.used, s)
      requires s in slabs && s in mem.slabs && 0 <= slabs[s].nfree == mem.slabs[s].nfree - 1 < mem.cap
      requires forall t <- mem.used :: slabs[t].nfree < mem.cap
      requires Backed(mem.slabs, mem.used, pool.out, pool.addr)
      modifies this`flq, this`elq, this`nslabs, mem`used, links, fl, el, pool`items, pool`out, pool.links
      ensures Valid() <==> mem.cap > 1 || old(el.list) != s
      ensures !Valid() ==> el.list == s && el.list !in mem.used && mem.slabs[s].item in pool.items
      ensures mem.Valid() && pool.Valid() && pool.out - Held() == old(pool.out - Held())
      ensures forall x :: mem.Live(x) <==> old(mem.Live(x))
      ensures mem.chain == old(mem.chain) && mem.slabs == old(mem.slabs)
      ensures mem.used == if mem.slabs[s].nfree == mem.cap then old(mem.used) - {s} else old(mem.used)
      ensures slabs[s].nfree == 0 && s in mem.used ==> fl.list == s
    {
      hide IsRing, Distinct, SameOutside, SlabMemory.Valid, SlabMemory.Live, Pool.Valid, Sorted, Backed, Heads, SetOf;
      hide HeldBy;
      OnOneList(slabs, mem.used, flq, elq, s);
      if mem.slabs[s].nfree == mem.cap {
        GiveBack(s, slabs);
      } else if mem.slabs[s].nfree == 1 {
        MoveToFl(s, slabs);
      } else {
        SortedSame(slabs, mem.slabs, mem.used, flq, elq, s);
      }
    }

    /** bi_slab_free: `h` is free again, everything else as it was.  The lists are
        right afterwards unless slabs hold one object each and the slab is the first
        of el: el then still points to a chunk that has gone back to the pool. */
    method Free(h: Addr)
      requires Valid() && mem.Live(h)
      modifies this`flq, this`elq, this`nslabs, mem, links, fl, el, pool`items, pool`out, pool.links
      ensures Valid() <==> mem.cap > 1 || old(el.list) != old(mem.heads[h].slab)
      ensures var s := old(mem.heads[h].slab);
              mem.FirstFree(s) == h && s in old(mem.slabs)
              && (mem.used == old(mem.used) || mem.used == old(mem.used) - {s})
              && (old(mem.slabs)[s].nfree == 0 && s in mem.used ==> fl.list == s)
      ensures !Valid() ==>
                el.list == old(mem.heads[h].slab) && el.list !in mem.used && el.list in mem.slabs &&
                mem.slabs[el.list].item in pool.items
      ensures mem.Valid() && pool.Valid() && !mem.Live(h) && forall x :: x != h ==> (mem.Live(x) <==> old(mem.Live(x)))
      ensures pool.out - Held() == old(pool.out - Held())
    {
      hide IsRing, Distinct, SameOutside, SlabMemory.Valid, SlabMemory.Live, Pool.Valid, Sorted, Backed, Heads, SetOf;
      hide HeldBy;
      LiveSlab(h);
      mem.NfreeBound(mem.heads[h].slab);
      var s := mem.Give(h, mem.heads[h].tag);
      BackedKept(old(mem.slabs), mem.slabs, mem.used, pool.out, pool.addr, s);
      HeldKept(old(mem.slabs), mem.slabs, mem.used, s);
      Settle(s, old(mem.slabs));
    }
  }

  /** __slab_freelist_rem of a slab that is on another list than the one named.
      The other list's own pointer is not looked at. */
  method RemOther(links: LinkMemory, list: Freelist, other: Freelist, s: Addr, ghost xs: seq<Addr>,
      ghost ys: seq<Addr>) returns (ghost k: nat)
    requires list != other && s in ys && s !in xs
    requires list.Holds(links, xs) && other.Holds(links, ys) && SetOf(xs) !! SetOf(ys)
    modifies links, list
    ensures k < |ys| && ys[k] == s && list.Holds(links, xs)
    ensures other.list != s ==> other.Holds(links, Without(ys, k))
  {
    k :| 0 <= k < |ys| && ys[k] == s;
    hide IsRing, SetOf, Distinct;
    HeadIn(list.list, links.n, links.p, xs);
    list.Rem(links, s, ys, k);
    HeadsFrame(list.list, old(links.n), old(links.p), links.n, links.p, xs, SetOf(ys));
  }

  lemma OneObject()
    ensures Accepted(600000) && Holds(600000)
    ensures MaxObjs(ObjMemSz(600000, CACHE_LINE), MEM_MGR_OBJ_SZ, SLAB_HEADER) == 1
  {
    hide ObjMemSz;
    Spacing(600000);
    AcceptedExactly(600000);
    assert ObjMemSz(600000, CACHE_LINE) == 600064;
  }

  /** Objects of 600000 bytes go one to a slab; one allocation and one free of the
      first leave el pointing to memory that has gone back to the pool. */
  method OneToASlab(pool: Pool, now: nat, junk: Addr) returns (si: SlabInfo)
    requires pool.Valid() && 0 !in pool.addr.Keys && pool.items != []
    modifies pool, pool.links
    ensures !si.Valid() && si.el.list !in si.mem.used
    ensures si.el.list in si.mem.slabs && si.mem.slabs[si.el.list].item in pool.items
  {
    hide ObjMemSz, MaxObjs, SlabInfo.Valid, Pool.Valid, SlabMemory.Live, Heads, IsRing;
    OneObject();
    si := new SlabInfo(600000, pool);
    var h := si.Alloc(now, junk);
    si.Single(h);
    si.Free(h);
  }

  /** __slab_freelist_add, next to another list. */
  method AddTo(links: LinkMemory, list: Freelist, other: Freelist, s: Addr, ghost xs: seq<Addr>, ghost ys: seq<Addr>)
    requires list != other && s != 0 && s !in xs && s !in ys
    requires list.Holds(links, xs) && other.Holds(links, ys) && SetOf(xs) !! SetOf(ys) && links.Ring([s])
    modifies links, list
    ensures list.list == s && list.Holds(links, Added(xs, s)) && other.Holds(links, ys)
  {
    hide IsRing, Distinct;
    list.Add(links, s, xs);
    HeadsFrame(other.list, old(links.n), old(links.p), links.n, links.p, ys, SetOf(xs + [s]));
  }

  /** __slab_freelist_rem of a slab that is on the list, next to another list. */
  method RemFrom(links: LinkMemory, list: Freelist, other: Freelist, s: Addr, ghost xs: seq<Addr>, ghost ys: seq<Addr>)
      returns (ghost k: nat)
    requires list != other && s in xs
    requires list.Holds(links, xs) && other.Holds(links, ys) && SetOf(xs) !! SetOf(ys)
    modifies links, list
    ensures k < |xs| && xs[k] == s && SetOf(Without(xs, k)) == SetOf(xs) - {s} && links.Ring([s])
    ensures list.Holds(links, Without(xs, k)) && other.Holds(links, ys)
  {
    k :| 0 <= k < |xs| && xs[k] == s;
    hide IsRing;
    RingDistinct(links.n, links.p, xs);
    WithoutSet(xs, k);
    hide Distinct;
    list.Rem(links, s, xs, k);
    HeadsFrame(other.list, old(links.n), old(links.p), links.n, links.p, ys, SetOf(xs));
  }
}
