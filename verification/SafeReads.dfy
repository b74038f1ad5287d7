/** Tree, deferred free and read sections together.

    One writer thread runs tree operations, hands the discarded nodes to timed
    reclamation after each operation, and returns memory; readers open and close
    sections at any moment.  Every store of an operation, every word of the
    reclamation protocol and every clock tick is a step of its own. */
module SafeReads {
  import opened Common
  import opened NodeHeap
  import opened TreeShape
  import opened CbTree
  import opened TreeRuns
  import Smr = TimedSmr

  /** `tree` is the live tree when the last operation began or ended; `retired`
      maps a discarded node to the moment its operation was over; `buffer` is
      free_buf; `safe[c]` are the nodes core `c`'s open section may stand on. */
  datatype Sys = Sys(
    smr: Smr.State, mem: Mem, busy: bool, start: Mem, tree: Tree, key: int, target: Answer,
    retired: map<Ptr, nat>, buffer: seq<Ptr>, safe: seq<set<Ptr>>)

  datatype SysStep =
    | Protocol(step: Smr.Step)
    | BeginOp(key: int, target: Answer)
    | StoreStep(mem: Mem)
    | EndOp(tree: Tree, discards: seq<Ptr>)
    | FreeNode
    | Reclaim(x: Ptr)

  function Live(t: Tree): set<Ptr> {
    set x | x in Ptrs(t)
  }

  /** Allocated nodes that no finished operation has discarded. */
  function Current(s: Sys): set<Ptr> {
    s.mem.heap.Keys - s.retired.Keys
  }

  /** Steps of readers, of table copying and of the clock. */
  predicate Concurrent(step: Smr.Step) {
    step.Tick? || step.EnterClock? || step.EnterIn? || step.EnterOut? || step.Exit? || step.CopyIn? || step.CopyOut?
  }

  predicate WriterOnly(step: Smr.Step) {
    step.Stamp? || step.ReclaimBegin? || step.ScanInStep? || step.ScanOutStep? || step.ReclaimEnd?
  }

  function Opened(s: Sys, step: Smr.Step): seq<set<Ptr>> {
    if step.EnterOut? && step.c < |s.safe| then s.safe[step.c := Current(s)] else s.safe
  }

  function Grown(safe: seq<set<Ptr>>, added: set<Ptr>): seq<set<Ptr>> {
    seq(|safe|, c requires 0 <= c < |safe| => safe[c] + added)
  }

  function Retire(retired: map<Ptr, nat>, discards: seq<Ptr>, now: nat): map<Ptr, nat> {
    map x | x in retired.Keys + (set y | y in discards) :: if x in retired then retired[x] else now
  }

  ghost predicate SysNext(b: Smr.Bounds, s: Sys, st: SysStep, s': Sys) {
    match st
    case Protocol(step) =>
      && (Concurrent(step) || (WriterOnly(step) && !s.busy))
      && Smr.Next(b, s.smr, step, s'.smr)
      && s' == s.(smr := s'.smr, safe := Opened(s, step))
    case BeginOp(key, target) =>
      && !s.busy && s.buffer == [] && s.smr.writer.Idle?
      && s' == s.(busy := true, start := s.mem, key := key, target := target)
    case StoreStep(mem) =>
      && s.busy && Keeps(s.mem, mem, s.key, s.target) && SameKv(s.mem.heap, mem.heap)
      && Contained(s.start.heap, Live(s.tree), mem)
      && s' == s.(mem := mem, safe := Grown(s.safe, mem.heap.Keys - s.mem.heap.Keys))
    case EndOp(tree, discards) =>
      && s.busy && Rep(s.mem.heap, s.mem.root, tree) && Live(tree) <= Current(s)
      && (forall x :: multiset(discards)[x] == if x in Current(s) && x !in Ptrs(tree) then 1 else 0)
      && s' == s.(busy := false, tree := tree, buffer := discards, retired := Retire(s.retired, discards, s.smr.now))
    case FreeNode =>
      && !s.busy && s.buffer != []
      && var x := s.buffer[|s.buffer| - 1];
        && x in s.retired
        && Smr.Next(b, s.smr, Smr.Free(x, s.retired[x]), s'.smr)
        && s' == s.(smr := s'.smr, buffer := s.buffer[..|s.buffer| - 1])
    case Reclaim(x) =>
      && !s.busy && Smr.Next(b, s.smr, Smr.Return(x), s'.smr)
      && s' == s.(smr := s'.smr, mem := s.mem.(heap := s.mem.heap - {x}), retired := s.retired - {x})
  }

  // ---- invariant ---------------------------------------------------------------

  function Objs(fs: seq<Smr.Freed>): seq<Ptr> {
    seq(|fs|, i requires 0 <= i < |fs| => fs[i].obj)
  }

  /** How often a node is on its way back to the allocator. */
  function InPipe(s: Sys, x: Ptr): nat {
    multiset(s.buffer)[x] + multiset(Objs(s.smr.cache))[x] + multiset(Objs(s.smr.ring))[x]
  }

  /** Every retired node is on its way back exactly once, with the right time. */
  ghost predicate PipeInv(s: Sys) {
    && (forall x :: InPipe(s, x) == if x in s.retired then 1 else 0)
    && (forall f :: f in s.smr.cache || f in s.smr.ring ==> f.obj in s.retired && f.unlinked == s.retired[f.obj])
    && (forall x :: x in s.retired ==> s.retired[x] <= s.smr.now)
  }

  /** The writer's own picture of memory. */
  ghost predicate MemInv(s: Sys) {
    && NULL !in s.mem.heap && s.retired.Keys <= s.mem.heap.Keys
    && (forall k :: Answered(View(s.mem, {}), k))
    && Live(s.tree) !! s.retired.Keys
    && if s.busy then
         && Contained(s.start.heap, Live(s.tree), s.mem) && s.buffer == [] && s.smr.writer.Idle?
         && s.start.heap.Keys == Live(s.tree) + s.retired.Keys
       else
         && Rep(s.mem.heap, s.mem.root, s.tree)
         && s.mem.heap.Keys == Live(s.tree) + s.retired.Keys
  }

  /** Core `c`'s open section: what it may stand on stays allocated and closed
      under links; nodes retired before the section began are not part of it. */
  ghost predicate SectionInv(s: Sys, c: nat)
    requires c < |s.safe| == |s.smr.cores|
  {
    s.smr.cores[c].phase.Inside? ==>
      && Closed(View(s.mem, s.safe[c])) && Current(s) <= s.safe[c]
      && forall x :: x in s.safe[c] && x in s.retired ==> s.smr.cores[c].phase.began <= s.retired[x]
  }

  ghost predicate SysInv(b: Smr.Bounds, s: Sys) {
    && Smr.Inv(b, s.smr) && |s.safe| == |s.smr.cores|
    && MemInv(s) && PipeInv(s)
    && forall c :: 0 <= c < |s.safe| ==> SectionInv(s, c)
  }

  /** Current nodes link to current nodes only. */
  lemma CurrentClosed(s: Sys)
    requires MemInv(s)
    ensures Closed(View(s.mem, Current(s)))
  {
    hide Answered;
    if s.busy {
      forall q | q in Current(s)
        ensures SafeOrNull(View(s.mem, Current(s)), s.mem.heap[q].left)
        ensures SafeOrNull(View(s.mem, Current(s)), s.mem.heap[q].right)
      {
        assert q !in s.start.heap || q in Live(s.tree);
      }
    } else {
      RepSize(s.mem.heap, s.mem.root, s.tree);
      forall q | q in Current(s)
        ensures SafeOrNull(View(s.mem, Current(s)), s.mem.heap[q].left)
        ensures SafeOrNull(View(s.mem, Current(s)), s.mem.heap[q].right)
      {
        KidsInside(s.mem.heap, s.mem.root, s.tree, Live(s.tree), q);
      }
    }
  }

  // ---- every step keeps it -----------------------------------------------------

  /** Readers, copies and the clock leave the writer's queues alone; a section
      is open after such a step if it was before, or is opened by it. */
  lemma ConcurrentEffect(b: Smr.Bounds, s: Smr.State, step: Smr.Step, s': Smr.State)
    requires Smr.Next(b, s, step, s') && Concurrent(step)
    ensures s'.cache == s.cache && s'.ring == s.ring && s'.writer == s.writer && s.now <= s'.now
    ensures |s'.cores| == |s.cores|
    ensures forall c ::
              0 <= c < |s.cores| && s'.cores[c].phase.Inside? ==>
                s'.cores[c].phase == s.cores[c].phase || step == Smr.EnterOut(c)
  {
  }

  lemma WriterOnlyEffect(b: Smr.Bounds, s: Smr.State, step: Smr.Step, s': Smr.State)
    requires Smr.Next(b, s, step, s') && WriterOnly(step)
    ensures s'.cores == s.cores && s'.now == s.now
    ensures if step.Stamp? then
              s.cache != [] && s'.cache == s.cache[1..] && s'.ring == s.ring + [s.cache[0].(stamp := step.tsc)]
            else s'.cache == s.cache && s'.ring == s.ring
  {
  }

  lemma PipeSame(s: Sys, s': Sys)
    requires PipeInv(s) && s'.buffer == s.buffer && s'.retired == s.retired
    requires s'.smr.cache == s.smr.cache && s'.smr.ring == s.smr.ring && s.smr.now <= s'.smr.now
    ensures PipeInv(s')
  {
  }

  lemma MemSame(s: Sys, s': Sys)
    requires MemInv(s) && s'.mem == s.mem && s'.busy == s.busy && s'.start == s.start && s'.tree == s.tree
    requires s'.retired == s.retired && (s.busy ==> s'.buffer == s.buffer && s'.smr.writer == s.smr.writer)
    ensures MemInv(s')
  {
  }

  lemma ConcurrentInv(b: Smr.Bounds, s: Sys, step: Smr.Step, s': Sys)
    requires SysInv(b, s) && SysNext(b, s, Protocol(step), s') && Concurrent(step)
    ensures SysInv(b, s')
  {
    hide Smr.Inv, Smr.Next, Closed, MemInv, PipeInv;
    Smr.NextInv(b, s.smr, step, s'.smr);
    ConcurrentEffect(b, s.smr, step, s'.smr);
    CurrentClosed(s);
    PipeSame(s, s');
    MemSame(s, s');
    forall c | 0 <= c < |s'.safe| ensures SectionInv(s', c) {
      assert SectionInv(s, c);
    }
  }

  lemma ObjsPush(fs: seq<Smr.Freed>, f: Smr.Freed)
    ensures Objs(fs + [f]) == Objs(fs) + [f.obj]
    ensures multiset(Objs(fs + [f])) == multiset(Objs(fs)) + multiset{f.obj}
  {
  }

  lemma ObjsPop(fs: seq<Smr.Freed>)
    requires fs != []
    ensures multiset(Objs(fs)) == multiset{fs[0].obj} + multiset(Objs(fs[1..]))
  {
    assert Objs(fs) == [fs[0].obj] + Objs(fs[1..]);
  }

  lemma BufferPop(buffer: seq<Ptr>)
    requires buffer != []
    ensures multiset(buffer) == multiset(buffer[..|buffer| - 1]) + multiset{buffer[|buffer| - 1]}
  {
    assert buffer == buffer[..|buffer| - 1] + [buffer[|buffer| - 1]];
  }

  lemma PipeStamp(s: Sys, s': Sys, tsc: nat)
    requires PipeInv(s) && s'.buffer == s.buffer && s'.retired == s.retired && s'.smr.now == s.smr.now
    requires s.smr.cache != [] && s'.smr.cache == s.smr.cache[1..]
    requires s'.smr.ring == s.smr.ring + [s.smr.cache[0].(stamp := tsc)]
    ensures PipeInv(s')
  {
    ObjsPop(s.smr.cache);
    ObjsPush(s.smr.ring, s.smr.cache[0].(stamp := tsc));
    assert s.smr.cache[0] in s.smr.cache;
    hide Objs;
    forall x ensures InPipe(s', x) == InPipe(s, x) {}
  }

  lemma WriterOnlyInv(b: Smr.Bounds, s: Sys, step: Smr.Step, s': Sys)
    requires SysInv(b, s) && SysNext(b, s, Protocol(step), s') && WriterOnly(step)
    ensures SysInv(b, s')
  {
    hide Smr.Inv, Smr.Next, Closed, MemInv, PipeInv;
    Smr.NextInv(b, s.smr, step, s'.smr);
    WriterOnlyEffect(b, s.smr, step, s'.smr);
    MemSame(s, s');
    if step.Stamp? {
      PipeStamp(s, s', step.tsc);
    } else {
      PipeSame(s, s');
    }
    forall c | 0 <= c < |s'.safe| ensures SectionInv(s', c) {
      assert SectionInv(s, c);
    }
  }

  lemma BeginInv(b: Smr.Bounds, s: Sys, key: int, target: Answer, s': Sys)
    requires SysInv(b, s) && SysNext(b, s, BeginOp(key, target), s')
    ensures SysInv(b, s')
  {
    hide Smr.Inv, Closed, Answered, Rep, Contained, Ptrs;
    StartContained(s.mem.heap, s.mem.root, s.tree, Live(s.tree));
    forall c | 0 <= c < |s'.safe| ensures SectionInv(s', c) {
      assert SectionInv(s, c);
    }
    forall x ensures InPipe(s', x) == InPipe(s, x) {}
  }

  /** What a store writes or allocates links to current nodes only. */
  lemma StoreCloses(s: Sys, m': Mem, safe: set<Ptr>)
    requires MemInv(s) && s.busy && Keeps(s.mem, m', s.key, s.target)
    requires Contained(s.start.heap, Live(s.tree), m')
    requires Closed(View(s.mem, safe)) && Current(s) <= safe
    ensures Closed(View(m', safe + (m'.heap.Keys - s.mem.heap.Keys)))
  {
    hide Answers, Rep;
    var v' := View(m', safe + (m'.heap.Keys - s.mem.heap.Keys));
    forall p | InReach(s.start.heap, Live(s.tree), m', p) ensures SafeOrNull(v', p) {
      if p != NULL && p in s.mem.heap {
        assert p in Current(s);
      }
    }
    forall q | q in v'.safe
      ensures SafeOrNull(v', m'.heap[q].left) && SafeOrNull(v', m'.heap[q].right)
    {
      if q in s.start.heap && q !in Live(s.tree) {
        assert m'.heap[q] == s.start.heap[q] == s.mem.heap[q];
      }
    }
  }

  lemma MemStore(s: Sys, m': Mem, s': Sys)
    requires MemInv(s) && s.busy && Keeps(s.mem, m', s.key, s.target) && Contained(s.start.heap, Live(s.tree), m')
    requires s' == s.(mem := m', safe := s'.safe)
    ensures MemInv(s')
  {
    assert NULL !in m'.heap;
    hide Rep, Ptrs, Answers, Contained;
    forall k ensures Answered(View(m', {}), k) {
      assert Answered(View(s.mem, {}), k);
    }
  }

  lemma SectionStore(s: Sys, m': Mem, s': Sys, c: nat)
    requires c < |s.safe| == |s.smr.cores| && SectionInv(s, c)
    requires MemInv(s) && s.busy && Keeps(s.mem, m', s.key, s.target) && Contained(s.start.heap, Live(s.tree), m')
    requires s' == s.(mem := m', safe := Grown(s.safe, m'.heap.Keys - s.mem.heap.Keys))
    ensures SectionInv(s', c)
  {
    hide Closed, Contained, Rep, Ptrs, Answered;
    if s.smr.cores[c].phase.Inside? {
      StoreCloses(s, m', s.safe[c]);
      assert s'.safe[c] == s.safe[c] + (m'.heap.Keys - s.mem.heap.Keys);
    }
  }

  lemma StoreInv(b: Smr.Bounds, s: Sys, m': Mem, s': Sys)
    requires SysInv(b, s) && SysNext(b, s, StoreStep(m'), s')
    ensures SysInv(b, s')
  {
    hide Smr.Inv, MemInv, PipeInv, SectionInv, Contained, Keeps, SameKv;
    MemStore(s, m', s');
    PipeSame(s, s');
    forall c | 0 <= c < |s'.safe| ensures SectionInv(s', c) {
      SectionStore(s, m', s', c);
    }
  }

  lemma DiscardsAre(s: Sys, tree: Tree, discards: seq<Ptr>)
    requires forall x :: multiset(discards)[x] == if x in Current(s) && x !in Ptrs(tree) then 1 else 0
    ensures forall x :: x in discards <==> x in Current(s) && x !in Ptrs(tree)
  {
  }

  lemma PipeEnd(s: Sys, tree: Tree, discards: seq<Ptr>, s': Sys)
    requires PipeInv(s) && s.buffer == [] && s'.smr == s.smr && s'.buffer == discards
    requires forall x :: multiset(discards)[x] == if x in Current(s) && x !in Ptrs(tree) then 1 else 0
    requires s'.retired == Retire(s.retired, discards, s.smr.now)
    ensures PipeInv(s')
  {
    DiscardsAre(s, tree, discards);
    forall x ensures InPipe(s', x) == if x in s'.retired then 1 else 0 {
      assert InPipe(s, x) == if x in s.retired then 1 else 0;
    }
  }

  lemma EndInv(b: Smr.Bounds, s: Sys, tree: Tree, discards: seq<Ptr>, s': Sys)
    requires SysInv(b, s) && SysNext(b, s, EndOp(tree, discards), s')
    ensures SysInv(b, s')
  {
    hide Rep, Ptrs, Closed, Answered, Contained, PipeInv;
    PipeEnd(s, tree, discards, s');
    DiscardsAre(s, tree, discards);
    forall c | 0 <= c < |s'.safe| ensures SectionInv(s', c) {
      assert SectionInv(s, c);
      assert Smr.CoreInv(s.smr.now, s.smr.cores[c]);
    }
  }

  lemma PipeFree(s: Sys, s': Sys, x: Ptr)
    requires PipeInv(s) && s.buffer != [] && x == s.buffer[|s.buffer| - 1] && x in s.retired
    requires s'.buffer == s.buffer[..|s.buffer| - 1] && s'.retired == s.retired && s'.smr.now == s.smr.now
    requires s'.smr.cache == s.smr.cache + [Smr.Freed(x, s.retired[x], 0)] && s'.smr.ring == s.smr.ring
    ensures PipeInv(s')
  {
    BufferPop(s.buffer);
    ObjsPush(s.smr.cache, Smr.Freed(x, s.retired[x], 0));
    hide Objs;
    forall y ensures InPipe(s', y) == InPipe(s, y) {}
  }

  lemma FreeInv(b: Smr.Bounds, s: Sys, s': Sys)
    requires SysInv(b, s) && SysNext(b, s, FreeNode, s')
    ensures SysInv(b, s')
  {
    hide Smr.Inv, Closed, MemInv, PipeInv;
    var x := s.buffer[|s.buffer| - 1];
    Smr.NextInv(b, s.smr, Smr.Free(x, s.retired[x]), s'.smr);
    MemSame(s, s');
    PipeFree(s, s', x);
    forall c | 0 <= c < |s'.safe| ensures SectionInv(s', c) {
      assert SectionInv(s, c);
    }
  }

  /** A node going back to its slab is outside every open section. */
  lemma ReclaimOutside(b: Smr.Bounds, s: Sys, x: Ptr, s': Sys, c: nat)
    requires Smr.Sound(b) && SysInv(b, s) && SysNext(b, s, Reclaim(x), s')
    requires c < |s.safe| && s.smr.cores[c].phase.Inside?
    ensures x !in s.safe[c]
  {
    hide Closed, Answered, Rep, Contained, Ptrs;
    Smr.ReturnIsSafe(b, s.smr, x, s'.smr, c);
    assert s.smr.ring[0] in s.smr.ring;
    assert SectionInv(s, c);
  }

  lemma ClosedWithout(v: View, x: Ptr)
    requires Closed(v) && x !in v.safe
    ensures Closed(v.(mem := v.mem.(heap := v.mem.heap - {x})))
  {
  }

  lemma AnsweredWithout(m: Mem, safe: set<Ptr>, x: Ptr, k: int)
    requires Closed(View(m, safe)) && x !in safe && Answered(View(m, {}), k)
    ensures Answered(View(m.(heap := m.heap - {x}), {}), k)
  {
    var r :| Answers(m.heap, m.root, k, r);
    var f: nat :| SearchIn(m.heap, m.root, k, f, r);
    SearchAvoids(View(m, safe), {x}, m.root, k, f, r);
    assert Answers(m.heap - {x}, m.root, k, r);
  }

  lemma PipeReturn(s: Sys, s': Sys, x: Ptr)
    requires PipeInv(s) && s.smr.ring != [] && s.smr.ring[0].obj == x && s'.retired == s.retired - {x}
    requires s'.buffer == s.buffer && s'.smr.cache == s.smr.cache && s'.smr.ring == s.smr.ring[1..]
    requires s'.smr.now == s.smr.now
    ensures PipeInv(s')
  {
    ObjsPop(s.smr.ring);
    assert s.smr.ring[0] in s.smr.ring;
    forall y ensures InPipe(s', y) == if y in s'.retired then 1 else 0 {
      assert InPipe(s, y) == if y in s.retired then 1 else 0;
    }
    forall f | f in s'.smr.cache || f in s'.smr.ring
      ensures f.obj in s'.retired && f.unlinked == s'.retired[f.obj]
    {
      ObjsIn(s'.smr.cache, f);
      ObjsIn(s'.smr.ring, f);
      assert InPipe(s', x) == 0;
    }
  }

  lemma ObjsIn(fs: seq<Smr.Freed>, f: Smr.Freed)
    ensures f in fs ==> multiset(Objs(fs))[f.obj] > 0
  {
    if f in fs {
      var i :| 0 <= i < |fs| && fs[i] == f;
      assert Objs(fs)[i] == f.obj;
    }
  }

  lemma MemReturn(b: Smr.Bounds, s: Sys, x: Ptr, s': Sys)
    requires MemInv(s) && !s.busy && x in s.retired && s'.mem == s.mem.(heap := s.mem.heap - {x})
    requires s'.retired == s.retired - {x}
    requires s'.busy == s.busy && s'.tree == s.tree
    ensures MemInv(s')
  {
    hide Closed, Answered, Rep, Ptrs, Contained;
    CurrentClosed(s);
    forall k ensures Answered(View(s'.mem, {}), k) {
      AnsweredWithout(s.mem, Current(s), x, k);
    }
    RepFrame(s.mem.heap, s'.mem.heap, s.mem.root, s.tree);
  }

  lemma ReclaimInv(b: Smr.Bounds, s: Sys, x: Ptr, s': Sys)
    requires Smr.Sound(b) && SysInv(b, s) && SysNext(b, s, Reclaim(x), s')
    ensures SysInv(b, s')
  {
    hide Smr.Inv, Closed, MemInv;
    Smr.NextInv(b, s.smr, Smr.Return(x), s'.smr);
    assert s.smr.ring[0] in s.smr.ring;
    MemReturn(b, s, x, s');
    PipeReturn(s, s', x);
    hide PipeInv;
    forall c | 0 <= c < |s'.safe| ensures SectionInv(s', c) {
      assert SectionInv(s, c);
      if s.smr.cores[c].phase.Inside? {
        ReclaimOutside(b, s, x, s', c);
        ClosedWithout(View(s.mem, s.safe[c]), x);
      }
    }
  }

  /** Every step of the whole system keeps the invariant. */
  lemma SysNextInv(b: Smr.Bounds, s: Sys, st: SysStep, s': Sys)
    requires Smr.Sound(b) && SysInv(b, s) && SysNext(b, s, st, s')
    ensures SysInv(b, s')
  {
    hide SysInv;
    match st
    case Protocol(step) =>
      if Concurrent(step) {
        ConcurrentInv(b, s, step, s');
      } else {
        WriterOnlyInv(b, s, step, s');
      }
    case BeginOp(key, target) => BeginInv(b, s, key, target, s');
    case StoreStep(mem) => StoreInv(b, s, mem, s');
    case EndOp(tree, discards) => EndInv(b, s, tree, discards, s');
    case FreeNode => FreeInv(b, s, s');
    case Reclaim(x) => ReclaimInv(b, s, x, s');
  }

  // ---- what a reader gets ------------------------------------------------------

  /** The system as core `c`'s open section sees it. */
  ghost function SectionView(s: Sys, c: nat): View
    requires c < |s.safe|
  {
    View(s.mem, s.safe[c])
  }

  lemma SameIsViewStep(v: View)
    requires Closed(v)
    ensures SomeViewStep(v, v)
  {
    assert ViewStep(v, v, 0, None);
  }

  /** A step of the system during an open section is a step of its view. */
  lemma StepIsViewStep(b: Smr.Bounds, s: Sys, st: SysStep, s': Sys, c: nat)
    requires Smr.Sound(b) && SysInv(b, s) && SysNext(b, s, st, s') && c < |s.safe|
    requires s.smr.cores[c].phase.Inside? && c < |s'.smr.cores| && s'.smr.cores[c].phase.Inside?
    ensures |s'.safe| == |s.safe|
    ensures SomeViewStep(SectionView(s, c), SectionView(s', c))
  {
    hide Smr.Inv, MemInv, PipeInv, Closed, SomeViewStep;
    SysNextInv(b, s, st, s');
    assert SectionInv(s, c) && SectionInv(s', c);
    match st
    case StoreStep(m') =>
      SafeAllocated(SectionView(s, c));
      StoreIsViewStep(SectionView(s, c), m', s'.safe[c], s.key, s.target);
      ViewStepIs(SectionView(s, c), SectionView(s', c), s.key, s.target);
    case Reclaim(x) =>
      ReclaimOutside(b, s, x, s', c);
      ReclaimIsViewStep(SectionView(s, c), {x});
    case _ =>
      SameIsViewStep(SectionView(s, c));
  }

  lemma SafeAllocated(v: View)
    requires Closed(v)
    ensures v.safe <= v.mem.heap.Keys
  {
  }

  lemma ViewStepIs(v: View, v': View, k: int, target: Answer)
    requires ViewStep(v, v', k, target)
    ensures SomeViewStep(v, v')
  {
  }

  ghost predicate SysStepAt(b: Smr.Bounds, ss: seq<Sys>, steps: seq<SysStep>, i: nat)
    requires i + 1 < |ss| && |steps| + 1 == |ss|
  {
    SysNext(b, ss[i], steps[i], ss[i + 1])
  }

  /** A run of the system from a state the invariant holds in. */
  ghost predicate SysRun(b: Smr.Bounds, ss: seq<Sys>, steps: seq<SysStep>) {
    && |steps| + 1 == |ss| && SysInv(b, ss[0])
    && forall i: nat :: i + 1 < |ss| ==> SysStepAt(b, ss, steps, i)
  }

  ghost predicate OpenThroughout(ss: seq<Sys>, c: nat) {
    forall i :: 0 <= i < |ss| ==> c < |ss[i].smr.cores| && c < |ss[i].safe| && ss[i].smr.cores[c].phase.Inside?
  }

  lemma {:induction false} RunInv(b: Smr.Bounds, ss: seq<Sys>, steps: seq<SysStep>, i: nat)
    requires Smr.Sound(b) && SysRun(b, ss, steps) && i < |ss|
    ensures SysInv(b, ss[i])
    decreases i
  {
    hide SysInv, SysNext;
    if i > 0 {
      RunInv(b, ss, steps, i - 1);
      assert SysStepAt(b, ss, steps, i - 1);
      SysNextInv(b, ss[i - 1], steps[i - 1], ss[i]);
    }
  }

  ghost function Views(ss: seq<Sys>, c: nat): (vs: seq<View>)
    requires OpenThroughout(ss, c)
    ensures |vs| == |ss| && forall i :: 0 <= i < |vs| ==> vs[i] == SectionView(ss[i], c)
  {
    seq(|ss|, i requires 0 <= i < |ss| => SectionView(ss[i], c))
  }

  /** Whatever the writer, the clock and the other readers do, an open section
      is a run in which a reader is safe. */
  lemma SectionIsViewRun(b: Smr.Bounds, ss: seq<Sys>, steps: seq<SysStep>, c: nat)
    requires Smr.Sound(b) && SysRun(b, ss, steps) && OpenThroughout(ss, c)
    ensures ViewRun(Views(ss, c)) && Total(Views(ss, c)[0])
  {
    hide SysInv, SysNext, SomeViewStep, Closed, Answered;
    var vs := Views(ss, c);
    forall i: nat | i + 1 < |vs| ensures ViewStepAt(vs, i) {
      RunInv(b, ss, steps, i);
      assert SysStepAt(b, ss, steps, i);
      StepIsViewStep(b, ss[i], steps[i], ss[i + 1], c);
    }
    SectionStarts(b, ss[0], c);
  }

  lemma SectionStarts(b: Smr.Bounds, s: Sys, c: nat)
    requires SysInv(b, s) && c < |s.safe| && s.smr.cores[c].phase.Inside?
    ensures Closed(SectionView(s, c)) && Total(SectionView(s, c))
  {
    assert SectionInv(s, c);
    hide Closed, Smr.Inv, PipeInv, Rep, Contained;
    forall k ensures Answered(SectionView(s, c), k) {
      assert Answered(View(s.mem, {}), k);
    }
  }

  lemma {:induction false} SafeStays(b: Smr.Bounds, ss: seq<Sys>, steps: seq<SysStep>, c: nat, i: nat, j: nat, q: Ptr)
    requires Smr.Sound(b) && SysRun(b, ss, steps) && OpenThroughout(ss, c) && i <= j < |ss| && q in ss[i].safe[c]
    ensures q in ss[j].safe[c] && q in ss[i].mem.heap && q in ss[j].mem.heap
    ensures ss[j].mem.heap[q].key == ss[i].mem.heap[q].key && ss[j].mem.heap[q].value == ss[i].mem.heap[q].value
    ensures i < j ==> steps[j - 1] != Reclaim(q)
    decreases j
  {
    hide SysInv, SysNext;
    SectionIsViewRun(b, ss, steps, c);
    var vs := Views(ss, c);
    ClosedAt(vs, i);
    if i < j {
      SafeStays(b, ss, steps, c, i, j - 1, q);
      assert ViewStepAt(vs, j - 1);
      RunInv(b, ss, steps, j - 1);
      assert SysStepAt(b, ss, steps, j - 1);
      if steps[j - 1] == Reclaim(q) {
        ReclaimOutside(b, ss[j - 1], q, ss[j], c);
      }
    }
  }

  /** A search while the section stays open. */
  method FindInSection(ghost b: Smr.Bounds, ss: seq<Sys>, ghost steps: seq<SysStep>, c: nat, needle: int)
      returns (found: Answer, last: nat)
    requires Smr.Sound(b) && SysRun(b, ss, steps) && OpenThroughout(ss, c)
    ensures last < |ss| && exists i :: 0 <= i <= last && Answers(ss[i].mem.heap, ss[i].mem.root, needle, found)
  {
    SectionIsViewRun(b, ss, steps, c);
    var vs := seq(|ss|, i requires 0 <= i < |ss| => View(ss[i].mem, ss[i].safe[c]));
    assert vs == Views(ss, c);
    found, last := TreeBB_Find(vs, needle);
    ghost var i :| 0 <= i <= last && Answers(vs[i].mem.heap, vs[i].mem.root, needle, found);
    assert Answers(ss[i].mem.heap, ss[i].mem.root, needle, found);
  }

  // ---- from the beginning ------------------------------------------------------

  /** Nothing has happened: no node, no freed object, no reader inside. */
  ghost predicate Init(s: Sys) {
    && Smr.Init(s.smr) && |s.smr.cores| > 0 && s.smr.now < WORD
    && s.mem == Mem(map[], NULL) && !s.busy && s.tree == Nil
    && s.retired == map[] && s.buffer == [] && |s.safe| == |s.smr.cores|
  }

  lemma InitInv(b: Smr.Bounds, s: Sys)
    requires Init(s)
    ensures SysInv(b, s)
  {
    Smr.InitInv(b, s.smr);
    hide Smr.Inv;
    forall k ensures Answered(View(s.mem, {}), k) {
      AnswersHere(s.mem.heap, s.mem.root, k);
    }
  }

  /** A run of the whole system, readers, clock and writer, from its beginning. */
  ghost predicate FromInit(b: Smr.Bounds, ss: seq<Sys>, steps: seq<SysStep>) {
    && |steps| + 1 == |ss| && Init(ss[0])
    && forall i: nat :: i + 1 < |ss| ==> SysStepAt(b, ss, steps, i)
  }

  /** The invariant holds in every reachable state. */
  lemma Reachable(b: Smr.Bounds, ss: seq<Sys>, steps: seq<SysStep>, i: nat)
    requires Smr.Sound(b) && FromInit(b, ss, steps) && i < |ss|
    ensures SysRun(b, ss, steps) && SysInv(b, ss[i])
  {
    hide SysInv, SysNext, Init;
    InitInv(b, ss[0]);
    RunInv(b, ss, steps, i);
  }

  /** Core `c` is inside its section from state `lo` to state `hi`. */
  ghost predicate OpenBetween(ss: seq<Sys>, c: nat, lo: nat, hi: nat)
    requires lo <= hi < |ss|
  {
    OpenThroughout(ss[lo..hi + 1], c)
  }

  /** Any stretch of a run is a run. */
  lemma Stretch(b: Smr.Bounds, ss: seq<Sys>, steps: seq<SysStep>, lo: nat, hi: nat)
    requires Smr.Sound(b) && FromInit(b, ss, steps) && lo <= hi < |ss|
    ensures SysRun(b, ss[lo..hi + 1], steps[lo..hi])
  {
    hide SysInv, SysNext, Init;
    Reachable(b, ss, steps, lo);
    var ts, ups := ss[lo..hi + 1], steps[lo..hi];
    forall i: nat | i + 1 < |ts| ensures SysStepAt(b, ts, ups, i) {
      assert SysStepAt(b, ss, steps, lo + i);
    }
  }

  /** A node the section may stand on is neither given back nor handed out again
      before the section ends: it stays allocated with its key and value. */
  lemma NeverReused(b: Smr.Bounds, ss: seq<Sys>, steps: seq<SysStep>, c: nat, lo: nat, hi: nat, q: Ptr)
    requires Smr.Sound(b) && FromInit(b, ss, steps) && lo <= hi < |ss| && OpenBetween(ss, c, lo, hi)
    requires c < |ss[lo].safe| && q in ss[lo].safe[c]
    ensures forall j :: lo <= j < hi ==> steps[j] != Reclaim(q)
    ensures forall j :: lo <= j <= hi ==> SameNode(ss[lo].mem.heap, ss[j].mem.heap, q)
  {
    hide SysInv, SysNext, Init;
    Stretch(b, ss, steps, lo, hi);
    var ts, ups := ss[lo..hi + 1], steps[lo..hi];
    forall j | lo <= j <= hi ensures SameNode(ss[lo].mem.heap, ss[j].mem.heap, q) {
      SafeStays(b, ts, ups, c, 0, j - lo, q);
      assert ts[j - lo] == ss[j];
    }
    forall j | lo <= j < hi ensures steps[j] != Reclaim(q) {
      SafeStays(b, ts, ups, c, 0, j + 1 - lo, q);
      assert ups[j - lo] == steps[j];
    }
  }

  /** The node is allocated in both memories, with the same key and value. */
  ghost predicate SameNode(h: Heap, h': Heap, q: Ptr) {
    q in h && q in h' && h'[q].key == h[q].key && h'[q].value == h[q].value
  }

  /** cb_find: a search inside a read section of any run.  It answers what the
      map answered at some instant of the section. */
  method CbFind(ghost b: Smr.Bounds, ss: seq<Sys>, ghost steps: seq<SysStep>, c: nat, lo: nat, hi: nat, needle: int)
      returns (found: Answer, last: nat)
    requires Smr.Sound(b) && FromInit(b, ss, steps) && lo <= hi < |ss| && OpenBetween(ss, c, lo, hi)
    ensures lo <= last <= hi
    ensures exists i :: lo <= i <= last && Answers(ss[i].mem.heap, ss[i].mem.root, needle, found)
  {
    Stretch(b, ss, steps, lo, hi);
    ghost var ts := ss[lo..hi + 1];
    found, last := FindInSection(b, ss[lo..hi + 1], steps[lo..hi], c, needle);
    ghost var i :| 0 <= i <= last && Answers(ts[i].mem.heap, ts[i].mem.root, needle, found);
    last := lo + last;
    assert Answers(ss[lo + i].mem.heap, ss[lo + i].mem.root, needle, found);
  }
}
