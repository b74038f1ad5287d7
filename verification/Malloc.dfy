/** malloc and free over a bump-allocated area: power-of-two classes with free
    lists, and large blocks that are never used again. */
module Malloc {
  import opened Common
  import opened PsList

  const MEM_BLOCK_SIZE: nat := 65536     // 16 pages
  const MIN_SMALL: nat := 64
  const MAX_SMALL: nat := 32768
  const NUM_FREE_LIST: nat := 32
  const CLASSES: nat := 10
  const ALLOC_HEADER: nat := 24          // sizeof(__alloc_t)

  // ---- size classes ------------------------------------------------------------------

  function Pow2(i: nat): nat {
    if i == 0 then 1 else 2 * Pow2(i - 1)
  }

  function BitLen(x: nat): nat {
    if x == 0 then 0 else 1 + BitLen(x / 2)
  }

  /** What the class of a size is.  The subtraction wraps around at zero. */
  function Index(size: nat): nat {
    BitLen((if size == 0 then MEM_BLOCK_SIZE - 1 else (size - 1) % MEM_BLOCK_SIZE) / MIN_SMALL)
  }

  /** GET_SIZE: the block size of a class, and of the class of a size. */
  function ClassSize(i: nat): nat { MIN_SMALL * Pow2(i) }
  function GetSize(size: nat): nat { ClassSize(Index(size)) }

  /** get_index */
  method GetIndex(size: nat) returns (idx: nat)
    ensures idx == Index(size)
  {
    var x: nat := (if size == 0 then MEM_BLOCK_SIZE - 1 else (size - 1) % MEM_BLOCK_SIZE) / MIN_SMALL;
    idx := 0;
    while x != 0
      invariant idx + BitLen(x) == Index(size)
    {
      x, idx := x / 2, idx + 1;
    }
  }

  lemma {:induction false} BitLenBounds(x: nat)
    ensures x < Pow2(BitLen(x)) && if x == 0 then BitLen(x) == 0 else Pow2(BitLen(x) - 1) <= x
  {
    if x > 1 {
      BitLenBounds(x / 2);
    }
  }

  lemma {:induction false} Pow2Grows(i: nat, j: nat)
    requires i <= j
    ensures 0 < Pow2(i) <= Pow2(j)
  {
    if i < j {
      Pow2Grows(i, j - 1);
    } else if i > 0 {
      Pow2Grows(i - 1, i - 1);
    }
  }

  lemma {:induction false} BitLenOfPow2(i: nat)
    ensures Pow2(i) > 0 && BitLen(Pow2(i) - 1) == i
  {
    if i > 0 {
      BitLenOfPow2(i - 1);
      assert (Pow2(i) - 1) / 2 == Pow2(i - 1) - 1;
    }
  }

  /** The class of a small size is the least whose blocks hold it, and the block
      size is in the class again. */
  lemma ClassFits(s: nat)
    requires 1 <= s <= MAX_SMALL
    ensures Index(s) < CLASSES && s <= GetSize(s) <= MAX_SMALL
    ensures forall i: nat :: i < Index(s) ==> ClassSize(i) < s
    ensures Index(GetSize(s)) == Index(s)
  {
    hide BitLen, Pow2, GetSize, Index;
    var x := (s - 1) / MIN_SMALL;
    var i := BitLen(x);
    IndexIs(s);
    BitLenBounds(x);
    SmallBits(x);
    forall j: nat | j < i ensures ClassSize(j) < s {
      Pow2Grows(j, i - 1);
    }
    ClassIndex(i);
  }

  lemma IndexIs(s: nat)
    requires 1 <= s <= MAX_SMALL
    ensures Index(s) == BitLen((s - 1) / MIN_SMALL) && GetSize(s) == ClassSize(Index(s))
  {
  }

  lemma SmallBits(x: nat)
    requires x < 512
    ensures BitLen(x) < CLASSES
  {
    hide Pow2, BitLen;
    BitLenBounds(x);
    Pow2Nine();
    if BitLen(x) > 0 {
      Pow2Reflects(BitLen(x) - 1, 9);
    }
  }

  lemma Pow2Reflects(i: nat, j: nat)
    requires Pow2(i) < Pow2(j)
    ensures i < j
  {
  }

  lemma Pow2Nine()
    ensures Pow2(9) == 512
  {
  }

  lemma ClassIndex(i: nat)
    requires i < CLASSES
    ensures MIN_SMALL <= ClassSize(i) <= MAX_SMALL && Index(ClassSize(i)) == i
  {
    hide BitLen, Pow2, Index;
    PowZero();
    Pow2Grows(0, i);
    Pow2Grows(i, 9);
    Pow2Nine();
    BitLenOfPow2(i);
    IndexIs(ClassSize(i));
    assert (ClassSize(i) - 1) / MIN_SMALL == Pow2(i) - 1;
  }

  lemma PowZero()
    ensures Pow2(0) == 1
  {
  }

  /** The bytes bi_malloc asks for, once the header has been added to a request. */
  function Need(s: nat): nat {
    if s <= MAX_SMALL then GetSize(s) else s
  }

  /** The need covers a request exactly when adding the header does not wrap
      around. */
  lemma NeedCovers(request: nat)
    requires request < WORD
    ensures Need((request + ALLOC_HEADER) % WORD) >= request + ALLOC_HEADER <==> request + ALLOC_HEADER < WORD
  {
    hide BitLen, Pow2, GetSize, Index;
    var s := (request + ALLOC_HEADER) % WORD;
    if 0 < s <= MAX_SMALL {
      ClassFits(s);
    }
    ZeroSize();
  }

  /** A request one word short of its header gets the smallest block. */
  lemma NeedTooSmall()
    ensures Need((WORD - 23 + ALLOC_HEADER) % WORD) == MIN_SMALL < WORD - 23
  {
    assert (WORD - 23 + ALLOC_HEADER) % WORD == 1;
    assert BitLen(0) == 0 && Pow2(0) == 1;
  }

  lemma ZeroSize()
    ensures GetSize(0) == MEM_BLOCK_SIZE
  {
    assert BitLen(1023) == 10;
    assert Pow2(10) == 1024;
  }

  // ---- the area -------------------------------------------------------------------------

  datatype Class = Class(lid: nat, idx: nat)

  /** What a block is for, for life. */
  datatype Home = Small(class_: Class) | Large(len: nat)

  /** Where a block is: with the program, on its free list, between the two, or a
      large one that has been freed. */
  datatype State = Live | Idle | Taken | Dropped

  /** What a call of bi_malloc comes to: a block, a failed assertion, or a size for
      which there is no list. */
  datatype Outcome = Got(ptr: Addr) | Stopped | NoClass

  function Len(h: Home): nat {
    match h
    case Small(c) => ClassSize(c.idx)
    case Large(len) => len
  }

  predicate Fit(h: Home) {
    match h
    case Small(c) => c.lid < NUM_FREE_LIST && c.idx < CLASSES
    case Large(len) => len > MAX_SMALL
  }

  /** Blocks in `order`, one after the other, fill the addresses from `start` to
      `bump` without gap or overlap. */
  ghost predicate Tiled(order: seq<Addr>, home: map<Addr, Home>, start: Addr, bump: Addr) {
    home.Keys == SetOf(order) && (forall a <- home :: Fit(home[a])) &&
    (if order == [] then bump == start
     else order[0] == start && order[|order| - 1] + Len(home[order[|order| - 1]]) == bump) &&
    forall i :: 0 < i < |order| ==> order[i] == order[i - 1] + Len(home[order[i - 1]])
  }

  lemma FitLen(h: Home)
    requires Fit(h)
    ensures Len(h) >= MIN_SMALL
  {
    if h.Small? {
      ClassIndex(h.class_.idx);
    }
  }

  /** Blocks later in the order lie behind. */
  lemma {:induction false} TiledApart(order: seq<Addr>, home: map<Addr, Home>, start: Addr, bump: Addr, i: nat, j: nat)
    requires Tiled(order, home, start, bump) && i <= j < |order|
    ensures order[i] in home && order[j] in home && order[j] + Len(home[order[j]]) <= bump && start <= order[i]
    ensures i < j ==> order[i] + Len(home[order[i]]) <= order[j]
    decreases j - i, j
  {
    hide Len;
    assert order[i] in SetOf(order) && order[j] in SetOf(order);
    FitLen(home[order[i]]);
    FitLen(home[order[j]]);
    if j < |order| - 1 && i == j {
      TiledBefore(order, home, start, bump, j);
    }
    if i < j {
      TiledApart(order, home, start, bump, i, j - 1);
      TiledBefore(order, home, start, bump, j);
      assert order[j - 1] in SetOf(order);
      FitLen(home[order[j - 1]]);
    } else {
      TiledBefore(order, home, start, bump, i);
    }
  }

  lemma {:induction false} TiledBefore(order: seq<Addr>, home: map<Addr, Home>, start: Addr, bump: Addr, k: nat)
    requires Tiled(order, home, start, bump) && k < |order|
    ensures order[k] in home && start <= order[k] && order[k] + Len(home[order[k]]) <= bump
    decreases |order| - k
  {
    hide Len;
    assert order[k] in SetOf(order);
    if k < |order| - 1 {
      TiledBefore(order, home, start, bump, k + 1);
    }
    StartFirst(order, home, start, bump, k);
  }

  lemma {:induction false} StartFirst(order: seq<Addr>, home: map<Addr, Home>, start: Addr, bump: Addr, k: nat)
    requires Tiled(order, home, start, bump) && k < |order|
    ensures start <= order[k]
  {
    hide Len;
    if k > 0 {
      StartFirst(order, home, start, bump, k - 1);
    }
  }

  /** Every address handed out by the bump pointer is in one block, and no other. */
  lemma TilesPartition(order: seq<Addr>, home: map<Addr, Home>, start: Addr, bump: Addr, x: Addr)
    requires Tiled(order, home, start, bump) && start <= x < bump
    ensures exists a <- home :: a <= x < a + Len(home[a])
    ensures forall a <- home, b <- home :: a <= x < a + Len(home[a]) && b <= x < b + Len(home[b]) ==> a == b
  {
    hide Len, Fit;
    var k := Holding(order, home, start, bump, x, |order|);
    assert order[k] in SetOf(order);
    forall a <- home, b <- home | a <= x < a + Len(home[a]) && b <= x < b + Len(home[b]) ensures a == b {
      var i :| 0 <= i < |order| && order[i] == a;
      var j :| 0 <= j < |order| && order[j] == b;
      if i < j {
        TiledApart(order, home, start, bump, i, j);
      } else if j < i {
        TiledApart(order, home, start, bump, j, i);
      }
    }
  }

  /** The last of the first `n` blocks that starts at or before `x`. */
  lemma {:induction false} Holding(order: seq<Addr>, home: map<Addr, Home>, start: Addr, bump: Addr, x: Addr, n: nat)
      returns (k: nat)
    requires Tiled(order, home, start, bump) && start <= x < bump && n <= |order|
    requires n < |order| ==> x < order[n]
    ensures k < |order| && order[k] in home && order[k] <= x < order[k] + Len(home[order[k]])
    decreases n
  {
    hide Len, Fit;
    assert n > 0;
    assert order[n - 1] in SetOf(order);
    if order[n - 1] <= x {
      k := n - 1;
    } else {
      k := Holding(order, home, start, bump, x, n - 1);
    }
  }

  // ---- tiling grows at the end -----------------------------------------------------------

  lemma TiledAppend(order: seq<Addr>, home: map<Addr, Home>, start: Addr, bump: Addr, h: Home)
    requires Tiled(order, home, start, bump) && Fit(h)
    ensures bump !in home && Tiled(order + [bump], home[bump := h], start, bump + Len(h))
  {
    hide Len, Fit;
    if bump in SetOf(order) {
      var k :| 0 <= k < |order| && order[k] == bump;
      TiledBefore(order, home, start, bump, k);
      FitLen(home[order[k]]);
    }
    assert forall a <- order :: a in SetOf(order);
    assert SetOf(order + [bump]) == SetOf(order) + {bump};
  }

  /** The `k`-th of equal blocks from `b` on. */
  function Cell(b: Addr, size: nat, k: nat): Addr { b + k * size }
  function Cells(b: Addr, size: nat, n: nat): seq<Addr> { seq(n, k requires 0 <= k => Cell(b, size, k)) }

  /** The homes of blocks with `n` of them added. */
  function WithCells(home: map<Addr, Home>, b: Addr, c: Class, n: nat): map<Addr, Home>
    decreases n
  {
    if n == 0 then home else WithCells(home, b, c, n - 1)[Cell(b, ClassSize(c.idx), n - 1) := Small(c)]
  }

  lemma {:induction false} TiledAppendCells(order: seq<Addr>, home: map<Addr, Home>, start: Addr, bump: Addr, c: Class,
      n: nat)
    requires Tiled(order, home, start, bump) && Fit(Small(c))
    ensures Tiled(order + Cells(bump, ClassSize(c.idx), n), WithCells(home, bump, c, n), start,
                Cell(bump, ClassSize(c.idx), n))
    ensures forall a :: a in WithCells(home, bump, c, n) <==> a in home || a in Cells(bump, ClassSize(c.idx), n)
    ensures forall a <- Cells(bump, ClassSize(c.idx), n) :: a !in home && WithCells(home, bump, c, n)[a] == Small(c)
    ensures forall a <- home :: WithCells(home, bump, c, n)[a] == home[a]
  {
    hide Tiled, ClassSize, Cell;
    var size := ClassSize(c.idx);
    if n == 0 {
      CellNext(bump, size, 0);
      assert order + Cells(bump, size, 0) == order;
    } else {
      var order' := order + Cells(bump, size, n - 1);
      var home' := WithCells(home, bump, c, n - 1);
      TiledAppendCells(order, home, start, bump, c, n - 1);
      TiledAppend(order', home', start, Cell(bump, size, n - 1), Small(c));
      CellNext(bump, size, n - 1);
      assert Cells(bump, size, n) == Cells(bump, size, n - 1) + [Cell(bump, size, n - 1)];
      assert order' + [Cell(bump, size, n - 1)] == order + Cells(bump, size, n);
    }
  }

  lemma CellNext(b: Addr, size: nat, k: nat)
    ensures Cell(b, size, 0) == b && Cell(b, size, k + 1) == Cell(b, size, k) + size
  {
  }

  // ---- free lists --------------------------------------------------------------------------

  /** `next` pointers lead from `first` through `xs` to NULL. */
  ghost predicate Leads(next: map<Addr, Addr>, first: Addr, xs: seq<Addr>) {
    Distinct(xs) && 0 !in xs && (forall x <- xs :: x in next) &&
    (if xs == [] then first == 0 else first == xs[0] && next[xs[|xs| - 1]] == 0) &&
    forall i :: 0 <= i < |xs| - 1 ==> next[xs[i]] == xs[i + 1]
  }

  lemma LeadsFrame(next: map<Addr, Addr>, next': map<Addr, Addr>, first: Addr, xs: seq<Addr>)
    requires Leads(next, first, xs) && forall x <- xs :: x in next ==> x in next' && next'[x] == next[x]
    ensures Leads(next', first, xs)
  {
  }

  lemma LeadsPush(next: map<Addr, Addr>, first: Addr, xs: seq<Addr>, a: Addr)
    requires Leads(next, first, xs) && a !in xs && a != 0
    ensures Leads(next[a := first], a, [a] + xs)
  {
  }

  lemma LeadsPop(next: map<Addr, Addr>, first: Addr, xs: seq<Addr>)
    requires Leads(next, first, xs)
    ensures first == 0 <==> xs == []
    ensures xs != [] ==>
              first == xs[0] && first in next && first !in xs[1..] && Leads(next[first := 0], next[first], xs[1..])
  {
  }

  /** One list for every list id and size class. */
  ghost predicate Listed(next: map<Addr, Addr>, fl: map<Class, Addr>, free: map<Class, seq<Addr>>) {
    fl.Keys == free.Keys && (forall c :: c in free <==> Fit(Small(c))) &&
    forall c <- free :: Leads(next, fl[c], free[c])
  }

  /** Idle blocks are on the list of their own class, and the lists hold nothing
      else. */
  ghost predicate Sorted(home: map<Addr, Home>, state: map<Addr, State>, free: map<Class, seq<Addr>>) {
    state.Keys == home.Keys &&
    (forall a <- state :: state[a] == Idle ==>
       home[a].Small? && home[a].class_ in free && a in free[home[a].class_]) &&
    (forall a <- state :: state[a] == Dropped ==> home[a].Large?) &&
    forall c <- free, a <- free[c] :: a in state && state[a] == Idle && home[a] == Small(c)
  }

  /** The header of a block the program has says what the block is. */
  ghost predicate Labelled(home: map<Addr, Home>, state: map<Addr, State>, size: map<Addr, nat>, lid: map<Addr, nat>) {
    forall a <- state :: state[a] == Live ==>
      a in home && a in size && a in lid && size[a] == Len(home[a]) && (home[a].Small? ==> lid[a] == home[a].class_.lid)
  }

  lemma ListedPush(next: map<Addr, Addr>, fl: map<Class, Addr>, free: map<Class, seq<Addr>>, home: map<Addr, Home>,
      state: map<Addr, State>, a: Addr, c: Class)
    requires Listed(next, fl, free) && Sorted(home, state, free) && a in state && state[a] != Idle
    requires home[a] == Small(c) && c in free && a != 0
    ensures c in fl && Listed(next[a := fl[c]], fl[c := a], free[c := [a] + free[c]])
    ensures Sorted(home, state[a := Idle], free[c := [a] + free[c]])
  {
    hide Leads, Fit;
    assert a !in free[c];
    LeadsPush(next, fl[c], free[c], a);
    forall d <- free | d != c ensures Leads(next[a := fl[c]], fl[d], free[d]) {
      LeadsFrame(next, next[a := fl[c]], fl[d], free[d]);
    }
  }

  lemma ListedPop(next: map<Addr, Addr>, fl: map<Class, Addr>, free: map<Class, seq<Addr>>, home: map<Addr, Home>,
      state: map<Addr, State>, c: Class)
    requires Listed(next, fl, free) && Sorted(home, state, free) && Fit(Small(c))
    ensures c in free && c in fl && (fl[c] == 0 <==> free[c] == [])
    ensures fl[c] != 0 ==>
              fl[c] in next && fl[c] == free[c][0] && fl[c] in state && state[fl[c]] == Idle && home[fl[c]] == Small(c)
    ensures fl[c] != 0 ==> Listed(next[fl[c] := 0], fl[c := next[fl[c]]], free[c := free[c][1..]])
    ensures fl[c] != 0 ==> Sorted(home, state[fl[c] := Taken], free[c := free[c][1..]])
  {
    hide Leads;
    LeadsPop(next, fl[c], free[c]);
    if fl[c] != 0 {
      var a := fl[c];
      assert free[c] == [a] + free[c][1..] && a in free[c];
      assert home[a] == Small(c);
      forall d <- free | d != c ensures Leads(next[a := 0], fl[d], free[d]) {
        assert a !in free[d];
        LeadsFrame(next, next[a := 0], fl[d], free[d]);
      }
    }
  }

  /** New blocks in front of a list: the first is set apart, the others join. */
  lemma ListedCut(next: map<Addr, Addr>, next': map<Addr, Addr>, fl: map<Class, Addr>, free: map<Class, seq<Addr>>,
      home: map<Addr, Home>, state: map<Addr, State>, c: Class, xs: seq<Addr>)
    requires Listed(next, fl, free) && Sorted(home, state, free) && c in free && |xs| > 1
    requires Leads(next', xs[1], xs[1..] + free[c]) && SameBut(next, next', xs)
    requires forall x <- xs :: x in state && state[x] == Taken
    ensures Listed(next', fl[c := xs[1]], free[c := xs[1..] + free[c]])
  {
    hide Leads, Fit;
    forall d <- free | d != c ensures Leads(next', fl[d], free[d]) {
      LeadsFrame(next, next', fl[d], free[d]);
    }
  }

  lemma SortedCut(free: map<Class, seq<Addr>>, home: map<Addr, Home>, state: map<Addr, State>, c: Class, xs: seq<Addr>)
    requires Sorted(home, state, free) && c in free && |xs| > 1 && Distinct(xs)
    requires forall x <- xs :: x in home && home[x] == Small(c) && x in state && state[x] == Taken
    ensures Sorted(home, CutState(state, xs), free[c := xs[1..] + free[c]])
  {
    InTail(xs);
  }

  lemma InTail(xs: seq<Addr>)
    requires |xs| > 0 && Distinct(xs)
    ensures forall x :: x in xs[1..] <==> x in xs && x != xs[0]
  {
  }

  /** All new blocks but the first are on the list. */
  ghost function CutState(state: map<Addr, State>, xs: seq<Addr>): map<Addr, State>
    requires xs != []
  {
    map a | a in state :: if a in xs && a != xs[0] then Idle else state[a]
  }

  /** The states with blocks `xs` reserved. */
  ghost function WithTaken(state: map<Addr, State>, xs: seq<Addr>): map<Addr, State> {
    map a | a in state.Keys + SetOf(xs) :: if a in xs then Taken else state[a]
  }

  lemma SortedReserve(free: map<Class, seq<Addr>>, home: map<Addr, Home>, home': map<Addr, Home>,
      state: map<Addr, State>, xs: seq<Addr>)
    requires Sorted(home, state, free) && forall x <- xs :: x !in home
    requires (forall a :: a in home' <==> a in home || a in xs) && forall a <- home :: home'[a] == home[a]
    ensures Sorted(home', WithTaken(state, xs), free)
  {
    assert forall c <- free, a <- free[c] :: a in home && a !in xs;
  }

  // ---- the allocator ------------------------------------------------------------------------

  class Heap {
    const start: Addr
    const end: Addr
    var bump: Addr
    var fl: map<Class, Addr>
    var next: map<Addr, Addr>
    var size: map<Addr, nat>
    var lid: map<Addr, nat>
    ghost var order: seq<Addr>
    ghost var home: map<Addr, Home>
    ghost var free: map<Class, seq<Addr>>
    ghost var state: map<Addr, State>

    /** The area is tiled, the lists are right, and the program's blocks are
        labelled.  A block may be on its way to or from the program. */
    ghost predicate Valid() reads this {
      0 < start && bump < end < WORD && Tiled(order, home, start, bump) && Listed(next, fl, free) &&
      Sorted(home, state, free) && Labelled(home, state, size, lid)
    }

    /** Blocks of class `c` that the caller is working on. */
    ghost predicate Mine(c: Class, xs: seq<Addr>) reads this`home, this`state {
      forall x <- xs :: x in home && home[x] == Small(c) && x in state && state[x] == Taken
    }

    /** Apart from `a`, every block is what and where it was, and new ones are
        idle. */
    twostate predicate Others(a: Addr) reads this`home, this`state {
      && (forall x <- old(home) :: x in home && home[x] == old(home)[x])
      && (forall x <- old(home) :: x != a && x in old(state) ==> x in state && state[x] == old(state)[x])
      && forall x <- home :: x !in old(home) && x != a ==> home[x].Small? && x in state && state[x] == Idle
    }

    /** bi_malloc_init */
    constructor (start: Addr, end: Addr)
      requires 0 < start < end < WORD
      ensures Valid() && bump == start && home == map[] && this.start == start && this.end == end
      ensures forall c :: Fit(Small(c)) ==> c in fl && fl[c] == 0
    {
      this.start, this.end, bump := start, end, start;
      fl := map l: nat, i: nat | l < NUM_FREE_LIST && i < CLASSES :: Class(l, i) := 0;
      next, size, lid := map[], map[], map[];
      order, home, state := [], map[], map[];
      free := map l: nat, i: nat | l < NUM_FREE_LIST && i < CLASSES :: Class(l, i) := [];
    }

    /** do_mmap: the bump pointer is a word.  Where the addition does not wrap
        around the call succeeds exactly below the end of the area; where it does,
        it always succeeds, and the bump pointer has moved backwards. */
    method Mmap(len: nat) returns (b: Addr, ok: bool)
      requires bump < end < WORD && len < WORD
      modifies this`bump
      ensures b == old(bump) && (ok <==> !(end <= b + len < WORD))
      ensures if b + len < WORD then bump == b + len else bump == b + len - WORD < b
    {
      b := bump;
      WordSum(b, len);
      bump := (b + len) % WORD;
      ok := bump < end;
    }

    /** The loop that links a fresh memory block's cells. */
    method LinkCells(b: Addr, len: nat, n: nat) returns (p: Addr)
      requires 0 < len && 1 < n
      modifies this`next
      ensures p == Cell(b, len, n - 1) && CellsLinked(next, b, len, n - 1) && SameBut(old(next), next, Cells(b, len, n))
    {
      hide Cell, CellsLinked, SameBut;
      p := b;
      var i := 0;
      CellNext(b, len, 0);
      NoCells(next, b, len, Cells(b, len, n));
      while i < n - 1
        invariant i <= n - 1 && p == Cell(b, len, i)
        invariant CellsLinked(next, b, len, i) && SameBut(old(next), next, Cells(b, len, n))
      {
        assert Cells(b, len, n)[i] == p;
        CellNext(b, len, i);
        LinkOne(next, b, len, i);
        SameButMore(old(next), next, Cells(b, len, n), p, p + len);
        next := next[p := p + len];
        p := next[p];
        i := i + 1;
      }
    }

    /** The first step of a cut: a memory block is the caller's, as cells of the
        class.  Past the top of the word only its address is to be had. */
    method Reserve(c: Class, ghost len: nat, ghost n: nat) returns (a: Addr, ok: bool)
      requires Valid() && Fit(Small(c)) && len == ClassSize(c.idx) && len > 0 && n == CellCount(len)
      modifies this`bump, this`order, this`home, this`state
      ensures a == old(bump) != 0 && (ok <==> !(end <= a + MEM_BLOCK_SIZE < WORD))
      ensures a + MEM_BLOCK_SIZE < end ==> Valid() && Mine(c, Cells(a, len, n))
      ensures a + MEM_BLOCK_SIZE < end ==> forall x <- old(home) :: x !in Cells(a, len, n)
      ensures a + MEM_BLOCK_SIZE < end ==> home.Keys == old(home).Keys + SetOf(Cells(a, len, n))
      ensures a + MEM_BLOCK_SIZE < end ==>
                forall x <- old(home) ::
                  home[x] == old(home)[x] && x in state && x in old(state) && state[x] == old(state)[x]
      ensures a + MEM_BLOCK_SIZE >= WORD ==> bump == a + MEM_BLOCK_SIZE - WORD
      ensures a + MEM_BLOCK_SIZE >= WORD ==> home == old(home)[a := Small(c)] && state == old(state)[a := Taken]
      ensures a + MEM_BLOCK_SIZE < end ==> bump == a + MEM_BLOCK_SIZE
    {
      hide Leads, Tiled, Listed, Sorted, Labelled, Cell, Cells, ClassSize, WithCells, Distinct, CellCount;
      AreaKnows(order, home, start, bump, state, free);
      CellsFill(bump, c.idx);
      a, ok := Mmap(MEM_BLOCK_SIZE);
      if a + MEM_BLOCK_SIZE < end {
        ghost var xs := Cells(a, len, n);
        TiledAppendCells(order, home, start, a, c, n);
        SortedReserve(free, home, WithCells(home, a, c, n), state, xs);
        LabelledReserve(home, WithCells(home, a, c, n), state, size, lid, xs);
        order, home, state := order + xs, WithCells(home, a, c, n), WithTaken(state, xs);
      } else if a + MEM_BLOCK_SIZE >= WORD {
        home, state := home[a := Small(c)], state[a := Taken];
      }
    }

    /** The second step: the cells are linked, the first is set apart, and the
        others go in front of the list as it is then.  Between the two steps other
        cores may do anything to other blocks. */
    method Cut(c: Class, b: Addr, len: nat, n: nat)
      requires b > 0 && len > 0 && n > 1 && c in fl
      modifies this`next, this`fl, this`free, this`state
      ensures old(Valid() && Mine(c, Cells(b, len, n))) ==> Valid() && state == CutState(old(state), Cells(b, len, n))
      ensures !old(Valid() && Mine(c, Cells(b, len, n))) ==> state == old(state)
    {
      hide Leads, Tiled, Listed, Sorted, Labelled, Cell, Cells, SameBut, CellsLinked, Distinct, CutState;
      var p := LinkCells(b, len, n);
      ghost var linked := next;
      CellsShape(linked, b, len, n);
      next := next[p := 0];
      var second := next[b];
      next := next[b := 0];
      next := next[p := fl[c]];
      fl := fl[c := second];
      if old(Valid() && Mine(c, Cells(b, len, n))) {
        ghost var xs := Cells(b, len, n);
        ListKnows(old(next), old(fl), free, c);
        TakenApart(home, state, free, c, xs);
        CutLeads(old(next), linked, b, len, n, old(fl)[c], free[c]);
        ListedCut(old(next), next, old(fl), free, home, state, c, xs);
        SortedCut(free, home, state, c, xs);
        LabelledCut(home, state, size, lid, xs);
        free, state := free[c := xs[1..] + free[c]], CutState(state, xs);
      }
    }

    /** The fresh memory an allocation from a class takes. */
    ghost function FreshFor(c: Class): nat reads this`fl {
      if c in fl && fl[c] != 0 then 0 else MEM_BLOCK_SIZE
    }

    /** __small_malloc: a block of the class, from its list or cut afresh. */
    method SmallMalloc(len: nat, l: nat, ghost i: nat) returns (a: Addr, ok: bool)
      requires Valid() && l < NUM_FREE_LIST && i < CLASSES && len == ClassSize(i)
      modifies this`bump, this`next, this`fl, this`order, this`home, this`free, this`state
      ensures ok <==> !(end <= old(bump + FreshFor(Class(l, i))) < WORD)
      ensures ok ==> a in home && home[a] == Small(Class(l, i)) && a in state && state[a] == Taken && a != 0
      ensures old(bump + FreshFor(Class(l, i))) < end ==>
                Valid() && Others(a) && (a in old(home) ==> a in old(state) && old(state)[a] == Idle)
      ensures old(bump + FreshFor(Class(l, i))) >= WORD ==>
                a == old(bump) && bump == old(bump + FreshFor(Class(l, i))) - WORD
      ensures old(bump + FreshFor(Class(l, i))) < end ==> bump == old(bump + FreshFor(Class(l, i)))
      ensures Class(l, i) in old(fl)
      ensures old(fl)[Class(l, i)] != 0 ==> a == old(fl)[Class(l, i)] && home == old(home)
      ensures old(fl)[Class(l, i)] == 0 ==> a == old(bump)
    {
      hide Leads, Tiled, Listed, Sorted, Labelled, ClassSize, Cells, CutState, CellCount;
      AreaKnows(order, home, start, bump, state, free);
      ClassIndex(i);
      var idx := GetIndex(len);
      var c := Class(l, idx);
      ListedPop(next, fl, free, home, state, c);
      a := fl[c];
      if a == 0 {
        CellsFill(bump, i);
        var n := CellCount(len);
        a, ok := Reserve(c, len, n);
        if ok {
          ghost var reserved := state;
          Cut(c, a, len, n);
          CutStateIs(reserved, a, len, n);
        }
        return;
      }
      ok := true;
      fl := fl[c := next[a]];
      next := next[a := 0];
      LabelledTaken(home, state, size, lid, a);
      free, state := free[c := free[c][1..]], state[a := Taken];
    }

    /** __small_free */
    method SmallFree(a: Addr, len: nat, l: nat, ghost i: nat)
      requires Valid() && l < NUM_FREE_LIST && i < CLASSES && len == ClassSize(i)
      requires a in home && a in state && home[a] == Small(Class(l, i)) && state[a] == Live
      modifies this`next, this`fl, this`free, this`state
      ensures Valid() && state == old(state)[a := Idle]
      ensures Class(l, i) in fl && fl[Class(l, i)] == a
    {
      hide Leads, Tiled, Listed, Sorted, Labelled, ClassSize;
      AreaKnows(order, home, start, bump, state, free);
      ClassIndex(i);
      var idx := GetIndex(len);
      var c := Class(l, idx);
      ListedPop(next, fl, free, home, state, c);
      ListedPush(next, fl, free, home, state, a, c);
      LabelledFreed(home, state, size, lid, a, Idle);
      next := next[a := fl[c]];
      fl := fl[c := a];
      free, state := free[c := [a] + free[c]], state[a := Idle];
    }

    /** bi_free.  NULL is ignored; a large block is never used again. */
    method Free(ptr: Addr)
      requires Valid()
      requires ptr != 0 ==> ptr >= ALLOC_HEADER && ptr - ALLOC_HEADER in state && state[ptr - ALLOC_HEADER] == Live
      modifies this`next, this`fl, this`free, this`state
      ensures Valid() && (ptr == 0 ==> state == old(state))
      ensures ptr != 0 ==>
                ptr - ALLOC_HEADER in home &&
                state == old(state)[ptr - ALLOC_HEADER := if home[ptr - ALLOC_HEADER].Small? then Idle else Dropped]
      ensures ptr != 0 && home[ptr - ALLOC_HEADER].Small? ==>
                var c := home[ptr - ALLOC_HEADER].class_; c in fl && fl[c] == ptr - ALLOC_HEADER
    {
      hide Leads, Tiled, Listed, Sorted, ClassSize;
      if ptr != 0 {
        AreaKnows(order, home, start, bump, state, free);
        var a := ptr - ALLOC_HEADER;
        SmallOrLarge(home[a]);
        if size[a] <= MAX_SMALL {
          SmallFree(a, size[a], lid[a], home[a].class_.idx);
        } else {
          SortedDropped(home, state, free, a);
          state := state[a := Dropped];
        }
      }
    }

    /** A large block, straight from the area. */
    method LargeMalloc(s: nat) returns (a: Addr, ok: bool)
      requires Valid() && MAX_SMALL < s < WORD
      modifies this`bump, this`order, this`home, this`state
      ensures a == old(bump) != 0 && (ok <==> !(end <= a + s < WORD))
      ensures ok ==> a in home && home == old(home)[a := Large(s)] && state == old(state)[a := Taken]
      ensures a + s < end ==> Valid() && a !in old(home)
      ensures a + s >= WORD ==> bump == a + s - WORD
      ensures a + s < end ==> bump == a + s
    {
      hide Leads, Tiled, Listed, Sorted, Labelled;
      AreaKnows(order, home, start, bump, state, free);
      TiledAppend(order, home, start, bump, Large(s));
      a, ok := Mmap(s);
      if ok {
        order, home, state := order + [a], home[a := Large(s)], state[a := Taken];
        LabelledNew(old(home), home, old(state), size, lid, a);
        SortedNew(old(home), old(state), free, a, s);
      }
    }

    /** Where the bump pointer gets to if a size is asked for through list `l`, not
        taken modulo 2^64. */
    ghost function Reach(s: nat, l: nat): (r: nat)
      reads this`fl, this`bump
      ensures s < WORD ==> r < bump + WORD
    {
      bump + if s <= MAX_SMALL then FreshFor(Class(l, Index(s))) else s
    }

    /** The block that waits on the list of a size, or NULL. */
    ghost function FirstFree(s: nat, l: nat): Addr reads this`fl {
      if s <= MAX_SMALL && Class(l, Index(s)) in fl then fl[Class(l, Index(s))] else 0
    }

    /** The choice between small and large. */
    method FindBlock(s: nat, l: nat) returns (a: Addr, need: nat, ok: bool)
      requires Valid() && 0 < s < WORD && l < NUM_FREE_LIST
      modifies this`bump, this`next, this`fl, this`order, this`home, this`free, this`state
      ensures ok <==> !(end <= old(Reach(s, l)) < WORD)
      ensures ok ==> a in home && a in state && state[a] == Taken && a != 0 && need == Len(home[a]) == Need(s) >= s
      ensures ok ==> home[a].Small? ==> home[a].class_ == Class(l, Index(s))
      ensures old(Reach(s, l)) < end ==>
                Valid() && Others(a) && (a in old(home) ==> a in old(state) && old(state)[a] == Idle)
      ensures old(Reach(s, l)) >= WORD ==> a == old(bump) && bump == old(Reach(s, l)) - WORD
      ensures old(Reach(s, l)) < end ==> bump == old(Reach(s, l))
      ensures old(FirstFree(s, l)) != 0 ==> a == old(FirstFree(s, l)) && home == old(home)
      ensures old(FirstFree(s, l)) == 0 ==> a == old(bump)
    {
      hide Leads, Tiled, Listed, Sorted, Labelled, ClassSize, Index;
      AreaKnows(order, home, start, bump, state, free);
      if s <= MAX_SMALL {
        ClassFits(s);
        var idx := GetIndex(s);
        need := ClassSize(idx);
        a, ok := SmallMalloc(need, l, idx);
      } else {
        need := s;
        a, ok := LargeMalloc(need);
      }
    }

    /** bi_malloc.  A block is had unless the area is used up, where the original
        stops at an assertion, or the size wraps around to zero, for which there is
        no list.  The block holds request and header exactly if adding the two does
        not wrap around.  And exactly if the bump pointer does not wrap around,
        which `ReachStays` gives a test for, the area stays tiled, so that no other
        block shares memory with this one; otherwise the block lies behind the bump
        pointer, where fresh memory is still to be handed out. */
    method Alloc(request: nat, core: nat) returns (r: Outcome, ghost a: Addr)
      requires Valid() && request < WORD
      modifies this`bump, this`next, this`fl, this`size, this`lid, this`order, this`home, this`free, this`state
      ensures r == NoClass <==> request + ALLOC_HEADER == WORD
      ensures r == Stopped <==> r != NoClass && end <= old(Reached(request, core)) < WORD
      ensures r.Got? ==> r.ptr == a + ALLOC_HEADER && a in home && a in state && state[a] == Live
      ensures r.Got? ==> (Len(home[a]) >= request + ALLOC_HEADER <==> request + ALLOC_HEADER < WORD)
      ensures r.Got? ==> (Valid() <==> old(Reached(request, core)) < WORD)
      ensures r.Got? && Valid() ==> Others(a) && (a in old(home) ==> a in old(state) && old(state)[a] == Idle)
      ensures r.Got? && Valid() && home[a].Small? ==>
                home[a].class_ == Class(core % NUM_FREE_LIST, Index((request + ALLOC_HEADER) % WORD))
      ensures r.Got? && !Valid() ==> bump == old(Reached(request, core)) - WORD < a == old(bump)
      ensures r.Got? && Valid() ==> bump == old(Reached(request, core))
      ensures var first := old(FirstFree((request + ALLOC_HEADER) % WORD, core % NUM_FREE_LIST));
        if first != 0 && r != NoClass then r == Got(first + ALLOC_HEADER) && home == old(home)
        else r.Got? ==> a == old(bump)
    {
      hide Leads, Tiled, Listed, Sorted, Labelled, Index, Need, Reach;
      HeaderSum(request);
      var s := (request + ALLOC_HEADER) % WORD;
      var l := core % NUM_FREE_LIST;
      if FirstFree(s, l) != 0 {
        OnList(s, l);
      }
      if s == 0 {
        return NoClass, 0;
      }
      var b, need, ok := FindBlock(s, l);
      if !ok {
        return Stopped, 0;
      }
      a := b;
      NeedFits(request, home[a]);
      if old(Reach(s, l)) < end {
        LabelledLive(home, state, size, lid, a, need, l);
        SortedLive(home, state, free, a);
      } else {
        NotTiled(order, home, start, bump, a);
      }
      size := size[b := need];
      lid := lid[b := l];
      state := state[a := Live];
      r := Got(b + ALLOC_HEADER);
    }

    /** A block on the list is had without fresh memory. */
    lemma OnList(s: nat, l: nat)
      requires FirstFree(s, l) != 0
      ensures Reach(s, l) == bump
    {
      hide Index;
    }

    lemma NotNull(a: Addr)
      requires Valid() && a in home
      ensures a != 0
    {
      AreaKnows(order, home, start, bump, state, free);
    }

    ghost function Reached(request: nat, core: nat): nat reads this`fl, this`bump {
      Reach((request + ALLOC_HEADER) % WORD, core % NUM_FREE_LIST)
    }

    /** What a caller can check beforehand. */
    lemma ReachStays(request: nat, core: nat)
      requires bump < end && request + ALLOC_HEADER + end <= WORD && MEM_BLOCK_SIZE + end <= WORD
      ensures Reached(request, core) < WORD
    {
      hide Index;
      HeaderSum(request);
    }

    /** Blocks of the program never overlap, and lie in the area. */
    lemma LiveApart(a: Addr, b: Addr)
      requires Valid() && a in home && b in home && a != b
      ensures a + Len(home[a]) <= b || b + Len(home[b]) <= a
      ensures start <= a && a + Len(home[a]) <= bump < end
    {
      hide Len, Fit;
      var i :| 0 <= i < |order| && order[i] == a;
      var j :| 0 <= j < |order| && order[j] == b;
      TiledBefore(order, home, start, bump, i);
      if i < j {
        TiledApart(order, home, start, bump, i, j);
      } else {
        TiledApart(order, home, start, bump, j, i);
      }
    }
  }

  lemma LabelledTaken(home: map<Addr, Home>, state: map<Addr, State>, size: map<Addr, nat>, lid: map<Addr, nat>,
      a: Addr)
    requires Labelled(home, state, size, lid)
    ensures Labelled(home, state[a := Taken], size, lid)
  {
  }

  lemma LabelledFreed(home: map<Addr, Home>, state: map<Addr, State>, size: map<Addr, nat>, lid: map<Addr, nat>,
      a: Addr, s: State)
    requires Labelled(home, state, size, lid) && s != Live
    ensures Labelled(home, state[a := s], size, lid)
  {
  }

  lemma LabelledNew(home: map<Addr, Home>, home': map<Addr, Home>, state: map<Addr, State>, size: map<Addr, nat>,
      lid: map<Addr, nat>, a: Addr)
    requires Labelled(home, state, size, lid) && a !in home && home'.Keys == home.Keys + {a}
    requires forall x <- home :: home'[x] == home[x]
    ensures Labelled(home', state[a := Taken], size, lid)
  {
  }

  lemma LabelledLive(home: map<Addr, Home>, state: map<Addr, State>, size: map<Addr, nat>, lid: map<Addr, nat>,
      a: Addr, need: nat, l: nat)
    requires Labelled(home, state, size, lid) && a in home && need == Len(home[a])
    requires (home[a].Small? ==> home[a].class_.lid == l)
    ensures Labelled(home, state[a := Live], size[a := need], lid[a := l])
  {
  }

  lemma SortedNew(home: map<Addr, Home>, state: map<Addr, State>, free: map<Class, seq<Addr>>, a: Addr, len: nat)
    requires Sorted(home, state, free) && a !in home
    ensures Sorted(home[a := Large(len)], state[a := Taken], free)
  {
  }

  lemma SortedLive(home: map<Addr, Home>, state: map<Addr, State>, free: map<Class, seq<Addr>>, a: Addr)
    requires Sorted(home, state, free) && a in state && state[a] == Taken
    ensures Sorted(home, state[a := Live], free)
  {
  }

  lemma SortedDropped(home: map<Addr, Home>, state: map<Addr, State>, free: map<Class, seq<Addr>>, a: Addr)
    requires Sorted(home, state, free) && a in state && state[a] == Live && home[a].Large?
    ensures Sorted(home, state[a := Dropped], free)
  {
  }

  /** The length of a block tells whether it is small. */
  lemma SmallOrLarge(h: Home)
    requires Fit(h)
    ensures Len(h) <= MAX_SMALL <==> h.Small?
    ensures h.Small? ==> Len(h) == ClassSize(h.class_.idx)
  {
    if h.Small? {
      ClassIndex(h.class_.idx);
    }
  }

  lemma FirstLinked(next: map<Addr, Addr>, b: Addr, len: nat, n: nat)
    requires n > 1 && CellsLinked(next, b, len, n - 1)
    ensures Cells(b, len, n)[0] == b && b in next && next[b] == Cells(b, len, n)[1]
  {
  }

  /** The cells' links before the stores of a cut. */
  lemma CellsShape(linked: map<Addr, Addr>, b: Addr, len: nat, n: nat)
    requires b > 0 && len > 0 && n > 1 && CellsLinked(linked, b, len, n - 1)
    ensures b in linked && |Cells(b, len, n)| == n && Cells(b, len, n)[0] == b && Distinct(Cells(b, len, n))
    ensures 0 !in Cells(b, len, n)
    ensures Cells(b, len, n)[n - 1] == Cell(b, len, n - 1) && linked[Cell(b, len, n - 1) := 0][b] == Cells(b, len, n)[1]
  {
    FirstLinked(linked, b, len, n);
    CellsDistinct(b, len, n);
    hide Cell;
    var xs := Cells(b, len, n);
    assert xs[n - 1] == Cell(b, len, n - 1) && xs[0] != xs[n - 1];
    forall k | 0 < k < n ensures xs[k] != 0 { CellsRise(b, len, 0, k); }
  }

  /** And after them: the cells lead on into the list that was there. */
  lemma CutLeads(next0: map<Addr, Addr>, linked: map<Addr, Addr>, b: Addr, len: nat, n: nat, first: Addr, ys: seq<Addr>)
    requires b > 0 && len > 0 && n > 1 && CellsLinked(linked, b, len, n - 1) && SameBut(next0, linked, Cells(b, len, n))
    requires Leads(next0, first, ys) && forall y <- ys :: y !in Cells(b, len, n)
    ensures |Cells(b, len, n)| == n
    ensures SameBut(next0, linked[Cell(b, len, n - 1) := 0][b := 0][Cell(b, len, n - 1) := first], Cells(b, len, n))
    ensures Leads(linked[Cell(b, len, n - 1) := 0][b := 0][Cell(b, len, n - 1) := first], Cells(b, len, n)[1],
                Cells(b, len, n)[1..] + ys)
  {
    CellsShape(linked, b, len, n);
    hide Cell;
    var xs := Cells(b, len, n);
    var next' := linked[Cell(b, len, n - 1) := 0][b := 0][Cell(b, len, n - 1) := first];
    var zs := xs[1..] + ys;
    assert forall k :: 0 <= k < n - 1 ==> zs[k] == xs[k + 1];
    assert forall k :: n - 1 <= k < |zs| ==> zs[k] == ys[k - (n - 1)] && zs[k] in ys;
    forall k | 0 <= k < n - 2 ensures next'[zs[k]] == zs[k + 1] {
      assert xs[k + 1] != xs[0] && xs[k + 1] != xs[n - 1];
    }
  }

  /** Blocks on their way are on no list. */
  lemma TakenApart(home: map<Addr, Home>, state: map<Addr, State>, free: map<Class, seq<Addr>>, c: Class, xs: seq<Addr>)
    requires Sorted(home, state, free) && c in free && forall x <- xs :: x in state && state[x] == Taken
    ensures forall y <- free[c] :: y !in xs
  {
  }

  lemma CutStateIs(state: map<Addr, State>, b: Addr, len: nat, n: nat)
    requires len > 0 && n > 0
    ensures |Cells(b, len, n)| == n && Cells(b, len, n)[0] == b
    ensures forall a <- CutState(state, Cells(b, len, n)) :: a in state &&
              CutState(state, Cells(b, len, n))[a] == if a in Cells(b, len, n) && a != b then Idle else state[a]
    ensures CutState(state, Cells(b, len, n)).Keys == state.Keys
  {
    CellNext(b, len, 0);
  }

  lemma ListKnows(next: map<Addr, Addr>, fl: map<Class, Addr>, free: map<Class, seq<Addr>>, c: Class)
    requires Listed(next, fl, free) && c in fl
    ensures c in free && Leads(next, fl[c], free[c])
  {
  }

  lemma AreaKnows(order: seq<Addr>, home: map<Addr, Home>, start: Addr, bump: Addr, state: map<Addr, State>,
      free: map<Class, seq<Addr>>)
    requires Tiled(order, home, start, bump) && Sorted(home, state, free)
    ensures state.Keys == home.Keys && start <= bump && forall a <- home :: start <= a && Fit(home[a])
  {
    hide Fit, Len;
    forall a <- home ensures start <= a {
      var i :| 0 <= i < |order| && order[i] == a;
      TiledBefore(order, home, start, bump, i);
    }
    if order != [] {
      TiledBefore(order, home, start, bump, |order| - 1);
    }
  }

  lemma LabelledReserve(home: map<Addr, Home>, home': map<Addr, Home>, state: map<Addr, State>, size: map<Addr, nat>,
      lid: map<Addr, nat>, xs: seq<Addr>)
    requires Labelled(home, state, size, lid) && state.Keys == home.Keys
    requires forall a <- home :: a in home' && home'[a] == home[a]
    ensures Labelled(home', WithTaken(state, xs), size, lid)
  {
  }

  lemma LabelledCut(home: map<Addr, Home>, state: map<Addr, State>, size: map<Addr, nat>, lid: map<Addr, nat>,
      xs: seq<Addr>)
    requires Labelled(home, state, size, lid) && xs != []
    ensures Labelled(home, CutState(state, xs), size, lid)
  {
  }

  /** A block that begins behind the bump pointer is in no tiling. */
  lemma NotTiled(order: seq<Addr>, home: map<Addr, Home>, start: Addr, bump: Addr, a: Addr)
    requires a in home && bump < a
    ensures !Tiled(order, home, start, bump)
  {
    if Tiled(order, home, start, bump) {
      var i :| 0 <= i < |order| && order[i] == a;
      TiledBefore(order, home, start, bump, i);
    }
  }

  lemma WordSum(b: nat, len: nat)
    requires b < WORD && len < WORD
    ensures (b + len) % WORD == if b + len < WORD then b + len else b + len - WORD
  {
  }

  lemma HeaderSum(request: nat)
    requires request < WORD
    ensures (request + ALLOC_HEADER) % WORD == if request + ALLOC_HEADER < WORD then request + ALLOC_HEADER
                else request + ALLOC_HEADER - WORD
  {
  }

  /** The length of the block found, against the request. */
  lemma NeedFits(request: nat, h: Home)
    requires request < WORD && 0 < (request + ALLOC_HEADER) % WORD
    requires Len(h) == Need((request + ALLOC_HEADER) % WORD)
    ensures Len(h) >= request + ALLOC_HEADER <==> request + ALLOC_HEADER < WORD
  {
    hide Need;
    NeedCovers(request);
  }

  ghost predicate CellsLinked(next: map<Addr, Addr>, b: Addr, len: nat, n: nat) {
    forall k :: 0 <= k < n ==> Cell(b, len, k) in next && next[Cell(b, len, k)] == Cell(b, len, k + 1)
  }

  ghost predicate SameBut(next: map<Addr, Addr>, next': map<Addr, Addr>, xs: seq<Addr>) {
    forall x :: x !in xs ==> (x in next <==> x in next') && (x in next ==> next'[x] == next[x])
  }

  lemma NoCells(next: map<Addr, Addr>, b: Addr, len: nat, xs: seq<Addr>)
    ensures CellsLinked(next, b, len, 0) && SameBut(next, next, xs)
  {
  }

  lemma SameButMore(next: map<Addr, Addr>, next': map<Addr, Addr>, xs: seq<Addr>, x: Addr, y: Addr)
    requires SameBut(next, next', xs) && x in xs
    ensures SameBut(next, next'[x := y], xs)
  {
  }

  lemma LinkOne(next: map<Addr, Addr>, b: Addr, len: nat, n: nat)
    requires CellsLinked(next, b, len, n) && len > 0
    ensures CellsLinked(next[Cell(b, len, n) := Cell(b, len, n + 1)], b, len, n + 1)
  {
  }

  lemma CellsRise(b: Addr, size: nat, i: nat, j: nat)
    requires i < j && size > 0
    ensures b <= Cell(b, size, i) < Cell(b, size, j)
  {
  }

  lemma CellsDistinct(b: Addr, size: nat, n: nat)
    requires size > 0
    ensures Distinct(Cells(b, size, n))
  {
  }

  lemma Pow2s()
    ensures Pow2(0) == 1 && Pow2(1) == 2 && Pow2(2) == 4 && Pow2(3) == 8 && Pow2(4) == 16
    ensures Pow2(5) == 32 && Pow2(6) == 64 && Pow2(7) == 128 && Pow2(8) == 256 && Pow2(9) == 512
  {
  }

  /** How many blocks of a length a memory block is cut into: `__SMALL_NR`. */
  function CellCount(len: nat): nat
    requires len > 0
  {
    MEM_BLOCK_SIZE / len
  }

  /** A block of memory is cut without remainder. */
  lemma CellsFill(b: Addr, i: nat)
    requires i < CLASSES
    ensures ClassSize(i) > 0 && CellCount(ClassSize(i)) > 1
    ensures Cell(b, ClassSize(i), CellCount(ClassSize(i))) == b + MEM_BLOCK_SIZE
  {
    Pow2s();
    hide Pow2;
    assert i == 0 || i == 1 || i == 2 || i == 3 || i == 4 || i == 5 || i == 6 || i == 7 || i == 8 || i == 9;
    assert 65536 / 64 == 1024 && 65536 / 128 == 512 && 65536 / 256 == 256 && 65536 / 512 == 128 && 65536 / 1024 == 64;
    assert 65536 / 2048 == 32 && 65536 / 4096 == 16 && 65536 / 8192 == 8 && 65536 / 16384 == 4 && 65536 / 32768 == 2;
  }

  /** What is freed is what the next call for its class gets, without fresh
      memory. */
  method FreeThenAlloc(h: Heap, ptr: Addr, request: nat, core: nat) returns (r: Outcome)
    requires h.Valid() && ptr >= ALLOC_HEADER && ptr - ALLOC_HEADER in h.state && h.state[ptr - ALLOC_HEADER] == Live
    requires ptr - ALLOC_HEADER in h.home && 0 < request + ALLOC_HEADER <= MAX_SMALL
    requires h.home[ptr - ALLOC_HEADER] == Small(Class(core % NUM_FREE_LIST, Index(request + ALLOC_HEADER)))
    modifies h
    ensures r == Got(ptr) && h.bump == old(h.bump) && h.home == old(h.home) && h.Valid()
  {
    hide Index, Tiled, Listed, Sorted, Labelled;
    h.NotNull(ptr - ALLOC_HEADER);
    h.Free(ptr);
    HeaderSum(request);
    h.OnList(request + ALLOC_HEADER, core % NUM_FREE_LIST);
    ghost var a;
    r, a := h.Alloc(request, core);
  }

  lemma LastWord(h: Heap, core: nat)
    ensures h.Reached(WORD - 25, core) == h.bump + WORD - 1
  {
  }

  /** A request that takes the size to the last word: the area is 2^64 - 1 bytes
      further on, one byte back, and the next memory block handed out overlaps. */
  method Overlap(start: Addr, end: Addr, core: nat) returns (ptr: Addr, b: Addr)
    requires 0 < start < end < WORD && start + MEM_BLOCK_SIZE <= end
    ensures b <= ptr - ALLOC_HEADER < b + MEM_BLOCK_SIZE
  {
    hide Heap.Valid, Heap.Others, Heap.Reached, Len, Fit;
    var h := new Heap(start, end);
    LastWord(h, core);
    var r;
    ghost var a;
    r, a := h.Alloc(WORD - 25, core);
    ptr := r.ptr;
    var ok;
    b, ok := h.Mmap(MEM_BLOCK_SIZE);
  }
}
