/** The server's message handler drives the tree and deferred free; what it does
    is a run of the whole system. */
module TreeServer {
  import opened Common
  import opened NodeHeap
  import opened TreeShape
  import opened CbTree
  import opened TreeRuns
  import opened SafeReads
  import Smr = TimedSmr

  datatype Request = InsertRequest(key: int, value: int) | DeleteRequest(key: int)

  /** The system state after the first `i` stores of an operation. */
  ghost function DuringOp(s: Sys, k: int, target: Answer, m: Mem): Sys {
    s.(busy := true, start := s.mem, key := k, target := target, mem := m,
        safe := Grown(s.safe, m.heap.Keys - s.mem.heap.Keys))
  }

  lemma GrownNothing(safe: seq<set<Ptr>>)
    ensures Grown(safe, {}) == safe
  {
    forall i | 0 <= i < |safe| ensures Grown(safe, {})[i] == safe[i] {
      assert safe[i] + {} == safe[i];
    }
  }

  lemma GrownTwice(safe: seq<set<Ptr>>, a: set<Ptr>, b: set<Ptr>, c: set<Ptr>)
    requires a <= b <= c
    ensures Grown(Grown(safe, b - a), c - b) == Grown(safe, c - a)
  {
    forall i | 0 <= i < |safe| ensures Grown(Grown(safe, b - a), c - b)[i] == Grown(safe, c - a)[i] {
      assert safe[i] + (b - a) + (c - b) == safe[i] + (c - a);
    }
  }

  lemma SnocRun(b: Smr.Bounds, ss: seq<Sys>, steps: seq<SysStep>, st: SysStep, s': Sys)
    requires SysRun(b, ss, steps) && SysNext(b, ss[|ss| - 1], st, s')
    ensures SysRun(b, ss + [s'], steps + [st])
  {
    hide SysNext, SysInv;
    var ss', steps' := ss + [s'], steps + [st];
    forall i: nat | i + 1 < |ss'| ensures SysStepAt(b, ss', steps', i) {
      if i + 1 < |ss| {
        assert SysStepAt(b, ss, steps, i);
      }
    }
  }

  /** The stores of an operation, one by one. */
  lemma {:induction false} StoresRun(b: Smr.Bounds, s: Sys, k: int, target: Answer, hist: seq<Mem>)
      returns (ss: seq<Sys>, steps: seq<SysStep>)
    requires SysInv(b, s) && !s.busy && s.buffer == [] && s.smr.writer.Idle?
    requires Chain(hist, k, target) && hist[0] == s.mem
    requires forall m :: m in hist ==> Contained(s.mem.heap, Live(s.tree), m)
    ensures SysRun(b, ss, steps) && ss[0] == s && ss[|ss| - 1] == DuringOp(s, k, target, hist[|hist| - 1])
    ensures forall st :: st in steps ==> OfHandler(st)
    ensures s.mem.heap.Keys <= hist[|hist| - 1].heap.Keys
    decreases |hist|
  {
    hide SysInv, SysNext, Keeps, Contained;
    if |hist| == 1 {
      ss, steps := [s], [];
      GrownNothing(s.safe);
      assert s.mem.heap.Keys - s.mem.heap.Keys == {};
      BeginEnabled(b, s, k, target);
      SnocRun(b, ss, steps, BeginOp(k, target), DuringOp(s, k, target, s.mem));
      ss, steps := [s, DuringOp(s, k, target, s.mem)], [BeginOp(k, target)];
    } else {
      var last := |hist| - 1;
      var front := hist[..last];
      forall i: nat | i + 1 < |front| ensures StepAt(front, i, k, target) {
        assert StepAt(hist, i, k, target);
      }
      ss, steps := StoresRun(b, s, k, target, front);
      assert StepAt(hist, last - 1, k, target) && hist[last] in hist;
      StoreEnabled(b, s, k, target, hist[last - 1], hist[last]);
      var s' := DuringOp(s, k, target, hist[last]);
      SnocRun(b, ss, steps, StoreStep(hist[last]), s');
      ss, steps := ss + [s'], steps + [StoreStep(hist[last])];
    }
  }

  lemma BeginEnabled(b: Smr.Bounds, s: Sys, k: int, target: Answer)
    requires !s.busy && s.buffer == [] && s.smr.writer.Idle?
    ensures SysNext(b, s, BeginOp(k, target), DuringOp(s, k, target, s.mem))
  {
    GrownNothing(s.safe);
    assert s.mem.heap.Keys - s.mem.heap.Keys == {};
  }

  lemma StoreEnabled(b: Smr.Bounds, s: Sys, k: int, target: Answer, m: Mem, m': Mem)
    requires Keeps(m, m', k, target) && SameKv(m.heap, m'.heap) && s.mem.heap.Keys <= m.heap.Keys
    requires Contained(s.mem.heap, Live(s.tree), m')
    ensures SysNext(b, DuringOp(s, k, target, m), StoreStep(m'), DuringOp(s, k, target, m'))
    ensures s.mem.heap.Keys <= m'.heap.Keys
  {
    hide SameKv, Contained;
    assert m.heap.Keys <= m'.heap.Keys;
    GrownTwice(s.safe, s.mem.heap.Keys, m.heap.Keys, m'.heap.Keys);
  }

  /** A finished operation leaves the discards the accounting says. */
  lemma EndEnabled(b: Smr.Bounds, s: Sys, k: int, target: Answer, m: Mem, after: Tree, discards: seq<Ptr>,
      born: multiset<Ptr>)
    requires SysInv(b, s) && !s.busy && Rep(m.heap, m.root, after) && Accounted(s.tree, born, discards, after)
    requires forall x :: x in m.heap <==> x in s.mem.heap || x in born
    requires forall x :: x in born ==> x !in s.mem.heap
    ensures var d := DuringOp(s, k, target, m);
      SysNext(b, d, EndOp(after, discards), d.(busy := false, tree := after, buffer := discards,
          retired := Retire(s.retired, discards, s.smr.now)))
  {
    hide Rep, Ptrs, Contents, Smr.Inv, SectionInv, PipeInv, Answered;
    var d := DuringOp(s, k, target, m);
    forall x ensures x in Current(d) <==> x in Ptrs(s.tree) || x in born {
      assert x in Ptrs(s.tree) <==> x in Live(s.tree);
    }
    assert Live(after) <= Current(d);
    forall x ensures multiset(discards)[x] == if x in Current(d) && x !in Ptrs(after) then 1 else 0 {}
  }

  /** The state after the last node of the buffer went to bi_smr_free. */
  ghost function Handed(s: Sys): Sys
    requires s.buffer != [] && s.buffer[|s.buffer| - 1] in s.retired
  {
    var x := s.buffer[|s.buffer| - 1];
    s.(smr := s.smr.(cache := s.smr.cache + [Smr.Freed(x, s.retired[x], 0)]), buffer := s.buffer[..|s.buffer| - 1])
  }

  lemma HandEnabled(b: Smr.Bounds, s: Sys)
    requires SysInv(b, s) && !s.busy && s.smr.writer.Idle? && s.buffer != []
    ensures s.buffer[|s.buffer| - 1] in s.retired && SysNext(b, s, FreeNode, Handed(s))
  {
    hide Smr.Inv, MemInv, SectionInv;
    var x := s.buffer[|s.buffer| - 1];
    assert x in s.buffer;
    assert InPipe(s, x) > 0;
  }

  /** free_nodes: the discarded nodes go to bi_smr_free, last one first. */
  method FreeNodes(w: Writer, ghost b: Smr.Bounds, ghost s: Sys, ghost ss0: seq<Sys>, ghost steps0: seq<SysStep>)
      returns (ghost ss: seq<Sys>, ghost steps: seq<SysStep>)
    requires Smr.Sound(b) && SysRun(b, ss0, steps0) && s == ss0[|ss0| - 1]
    requires !s.busy && s.smr.writer.Idle? && s.buffer == w.freeBuf
    modifies w`freeBuf
    ensures w.freeBuf == [] && SysRun(b, ss, steps) && ss[0] == ss0[0]
    ensures var s' := ss[|ss| - 1];
            s'.mem == s.mem && s'.tree == s.tree && !s'.busy && s'.buffer == [] && s'.smr.writer.Idle?
    ensures (forall st :: st in steps0 ==> OfHandler(st)) ==> forall st :: st in steps ==> OfHandler(st)
  {
    hide SysInv, SysNext;
    ss, steps := ss0, steps0;
    ghost var t := s;
    while |w.freeBuf| > 0
      invariant SysRun(b, ss, steps) && ss[0] == ss0[0] && t == ss[|ss| - 1]
      invariant t.mem == s.mem && t.tree == s.tree && !t.busy && t.buffer == w.freeBuf && t.smr.writer.Idle?
      invariant (forall st :: st in steps0 ==> OfHandler(st)) ==> forall st :: st in steps ==> OfHandler(st)
      decreases |w.freeBuf|
    {
      RunInv(b, ss, steps, |ss| - 1);
      HandEnabled(b, t);
      SnocRun(b, ss, steps, FreeNode, Handed(t));
      t := Handed(t);
      ss, steps := ss + [t], steps + [FreeNode];
      w.freeBuf := w.freeBuf[..|w.freeBuf| - 1];
    }
  }

  /** rbtree_msg_handler: one operation, then the deferred frees.  The writer's
      stores and frees are steps the system allows. */
  method RbtreeMsgHandler(w: Writer, req: Request, ghost b: Smr.Bounds, ghost s: Sys)
      returns (reply: int, ghost ss: seq<Sys>, ghost steps: seq<SysStep>)
    requires Smr.Sound(b) && SysInv(b, s) && !s.busy && s.buffer == [] && s.smr.writer.Idle?
    requires w.Ready() && w.freeBuf == [] && w.Memory() == s.mem && w.shape == s.tree
    modifies w
    ensures w.Ready() && w.freeBuf == []
    ensures req.InsertRequest? ==>
              w.Model() == if req.key in old(w.Model()) then old(w.Model()) else old(w.Model())[req.key := req.value]
    ensures req.DeleteRequest? ==>
              w.Model() == old(w.Model()) - {req.key} &&
              reply == if req.key in old(w.Model()) then old(w.Model())[req.key] else 0
    ensures HandlerRun(b, ss, steps) && ss[0] == s
    ensures var s' := ss[|ss| - 1];
            s'.mem == w.Memory() && s'.tree == w.shape && !s'.busy && s'.buffer == [] && s'.smr.writer.Idle?
  {
    hide SysInv, SysNext, Rep, Bst, Ptrs, Contents, Accounted, Contained, StepAt, Updated;
    reply := 0;
    if req.InsertRequest? {
      w.TreeBB_Insert(req.key, req.value);
    } else {
      reply := w.TreeBB_Delete(req.key);
    }
    ss, steps := OperationRun(b, s, w);
    ss, steps := FreeNodes(w, b, ss[|ss| - 1], ss, steps);
  }

  /** A finished operation of the writer, as steps of the system. */
  lemma OperationRun(b: Smr.Bounds, s: Sys, w: Writer) returns (ss: seq<Sys>, steps: seq<SysStep>)
    requires SysInv(b, s) && !s.busy && s.buffer == [] && s.smr.writer.Idle?
    requires w.Ready() && w.Traced() && w.start == s.mem && w.live == Live(s.tree)
    requires Accounted(s.tree, w.born, w.freeBuf, w.shape)
    ensures HandlerRun(b, ss, steps) && ss[0] == s
    ensures var s' := ss[|ss| - 1];
            s'.mem == w.Memory() && s'.tree == w.shape && !s'.busy && s'.buffer == w.freeBuf && s'.smr.writer.Idle?
  {
    hide SysInv, SysNext, Rep, Bst, Ptrs, Accounted, Contained, StepAt;
    ss, steps := StoresRun(b, s, w.opKey, w.target, w.hist);
    EndEnabled(b, s, w.opKey, w.target, w.Memory(), w.shape, w.freeBuf, w.born);
    var d := ss[|ss| - 1];
    var e := d.(busy := false, tree := w.shape, buffer := w.freeBuf,
        retired := Retire(s.retired, w.freeBuf, s.smr.now));
    SnocRun(b, ss, steps, EndOp(w.shape, w.freeBuf), e);
    ss, steps := ss + [e], steps + [EndOp(w.shape, w.freeBuf)];
  }

  // ---- the whole life of the server ------------------------------------------------

  /** The map after a list of requests, by the meaning of put-if-absent and
      remove. */
  function After(m: map<int, int>, reqs: seq<Request>): map<int, int> {
    if reqs == [] then m
    else
      var before := After(m, reqs[..|reqs| - 1]);
      match reqs[|reqs| - 1]
      case InsertRequest(k, v) => if k in before then before else before[k := v]
      case DeleteRequest(k) => before - {k}
  }

  /** The server, from an empty tree, whatever it is asked: the map is what the
      requests say, and everything done is a run of the system. */
  method Serve(reqs: seq<Request>, ghost b: Smr.Bounds, ghost s: Sys)
      returns (w: Writer, ghost ss: seq<Sys>, ghost steps: seq<SysStep>)
    requires Smr.Sound(b) && Init(s)
    ensures w.Ready() && w.Model() == After(map[], reqs)
    ensures FromInit(b, ss, steps) && ss[0] == s && ss[|ss| - 1].mem == w.Memory()
  {
    hide SysInv, SysNext, Rep, Bst, Ptrs, Contents;
    InitInv(b, s);
    w := new Writer();
    EmptyWriter(w);
    ss, steps := [s], [];
    var i := 0;
    ghost var t := s;
    while i < |reqs|
      invariant i <= |reqs| && w.Ready() && w.freeBuf == [] && w.Model() == After(map[], reqs[..i])
      invariant SysRun(b, ss, steps) && ss[0] == s && t == ss[|ss| - 1]
      invariant t.mem == w.Memory() && t.tree == w.shape && !t.busy && t.buffer == [] && t.smr.writer.Idle?
    {
      RunInv(b, ss, steps, |ss| - 1);
      var reply;
      ghost var ts, ups;
      reply, ts, ups := RbtreeMsgHandler(w, reqs[i], b, t);
      Joined(b, ss, steps, ts, ups);
      ss, steps := ss + ts[1..], steps + ups;
      t := ss[|ss| - 1];
      assert reqs[..i + 1][..i] == reqs[..i];
      i := i + 1;
    }
    assert reqs[..i] == reqs;
  }

  lemma EmptyWriter(w: Writer)
    requires w.Ready() && w.heap == map[]
    ensures w.Memory() == Mem(map[], NULL) && w.shape == Nil
  {
  }

  /** A run can be continued by a run from where it ended. */
  lemma Joined(b: Smr.Bounds, ss: seq<Sys>, steps: seq<SysStep>, ts: seq<Sys>, ups: seq<SysStep>)
    requires SysRun(b, ss, steps) && SysRun(b, ts, ups) && ts[0] == ss[|ss| - 1]
    ensures SysRun(b, ss + ts[1..], steps + ups)
    ensures (ss + ts[1..])[|ss + ts[1..]| - 1] == ts[|ts| - 1]
  {
    hide SysNext, SysInv;
    var all, asteps := ss + ts[1..], steps + ups;
    forall i: nat | i + 1 < |all| ensures SysStepAt(b, all, asteps, i) {
      if i + 1 < |ss| {
        assert SysStepAt(b, ss, steps, i);
      } else {
        var k := i + 1 - |ss|;
        assert SysStepAt(b, ts, ups, k);
        assert all[i] == ts[k] && all[i + 1] == ts[k + 1] && asteps[i] == ups[k];
      }
    }
  }

  // ---- readers between the writer's steps --------------------------------------------

  /** The two states agree on all that concerns the writer. */
  ghost predicate SameWriter(s: Sys, t: Sys) {
    && s.mem == t.mem && s.busy == t.busy && s.start == t.start && s.tree == t.tree && s.key == t.key &&
       s.target == t.target
    && s.buffer == t.buffer && s.retired.Keys == t.retired.Keys && s.smr.writer.Idle? && t.smr.writer.Idle?
  }

  /** The steps the message handler is made of. */
  predicate OfHandler(st: SysStep) {
    st.BeginOp? || st.StoreStep? || st.EndOp? || st.FreeNode?
  }

  predicate OfOthers(st: SysStep) {
    st.Protocol? && Concurrent(st.step)
  }

  /** What readers, copies and the clock do leaves the writer's side alone. */
  lemma OthersKeep(b: Smr.Bounds, s: Sys, t: Sys, st: SysStep, t': Sys)
    requires SameWriter(s, t) && SysNext(b, t, st, t') && OfOthers(st)
    ensures SameWriter(s, t')
  {
  }

  /** A step of the handler that is possible in one state is possible in every
      state with the same writer's side. */
  lemma HandlerCan(b: Smr.Bounds, s: Sys, t: Sys, st: SysStep, s': Sys) returns (t': Sys)
    requires SysInv(b, t) && SameWriter(s, t) && SysNext(b, s, st, s') && OfHandler(st)
    ensures SysNext(b, t, st, t')
  {
    hide SysInv, Keeps, SameKv, Contained, Rep, Ptrs;
    match st
    case BeginOp(k, target) =>
      t' := t.(busy := true, start := t.mem, key := k, target := target);
    case StoreStep(m) =>
      t' := t.(mem := m, safe := Grown(t.safe, m.heap.Keys - t.mem.heap.Keys));
    case EndOp(tree, discards) =>
      t' := t.(busy := false, tree := tree, buffer := discards, retired := Retire(t.retired, discards, t.smr.now));
      assert Current(s) == Current(t);
    case FreeNode =>
      HandEnabled(b, t);
      t' := Handed(t);
  }

  /** And it does the same there. */
  lemma HandlerDoes(b: Smr.Bounds, s: Sys, t: Sys, st: SysStep, s': Sys, t': Sys)
    requires SameWriter(s, t) && SysNext(b, s, st, s') && SysNext(b, t, st, t') && OfHandler(st)
    ensures SameWriter(s', t')
  {
    hide Keeps, SameKv, Contained, Rep, Ptrs;
  }

  /** The handler's steps of a run, in order. */
  function HandlerSteps(steps: seq<SysStep>): seq<SysStep> {
    if steps == [] then []
    else
      var front := HandlerSteps(steps[..|steps| - 1]);
      if OfHandler(steps[|steps| - 1]) then front + [steps[|steps| - 1]] else front
  }

  /** `ss` is the handler's run `ws` up to its `n`-th step, with any steps of
      readers, copies and the clock in between. */
  ghost predicate Woven(b: Smr.Bounds, ws: seq<Sys>, wsteps: seq<SysStep>, n: nat, ss: seq<Sys>, steps: seq<SysStep>) {
    && |wsteps| + 1 == |ws| && n < |ws| && SysRun(b, ss, steps) && ss[0] == ws[0]
    && (forall st :: st in steps ==> OfHandler(st) || OfOthers(st))
    && HandlerSteps(steps) == wsteps[..n]
  }

  ghost predicate HandlerRun(b: Smr.Bounds, ws: seq<Sys>, wsteps: seq<SysStep>) {
    SysRun(b, ws, wsteps) && ws[0].smr.writer.Idle? && forall st :: st in wsteps ==> OfHandler(st)
  }

  /** However the two are interleaved, the writer's side is the same: memory goes
      through the same stores. */
  lemma {:induction false} WovenSame(b: Smr.Bounds, ws: seq<Sys>, wsteps: seq<SysStep>, n: nat, ss: seq<Sys>,
      steps: seq<SysStep>)
    requires HandlerRun(b, ws, wsteps) && Woven(b, ws, wsteps, n, ss, steps)
    ensures SameWriter(ws[n], ss[|ss| - 1])
    decreases |steps|
  {
    hide SysNext, SysInv, SameWriter, OfHandler, OfOthers;
    if steps == [] {
      SameSelf(ws[0]);
    } else {
      var last := |steps| - 1;
      var ss', steps' := ss[..|ss| - 1], steps[..last];
      forall i: nat | i + 1 < |ss'| ensures SysStepAt(b, ss', steps', i) { assert SysStepAt(b, ss, steps, i); }
      assert SysStepAt(b, ss, steps, last);
      assert steps[last] in steps;
      if OfHandler(steps[last]) {
        assert wsteps[..n] == HandlerSteps(steps') + [steps[last]];
        assert wsteps[..n - 1] == HandlerSteps(steps') && wsteps[n - 1] == steps[last];
        WovenSame(b, ws, wsteps, n - 1, ss', steps');
        assert SysStepAt(b, ws, wsteps, n - 1);
        HandlerDoes(b, ws[n - 1], ss[last], steps[last], ws[n], ss[last + 1]);
      } else {
        WovenSame(b, ws, wsteps, n, ss', steps');
        OthersKeep(b, ws[n], ss[last], steps[last], ss[last + 1]);
      }
    }
  }

  lemma SameSelf(s: Sys)
    requires s.smr.writer.Idle?
    ensures SameWriter(s, s)
  {
  }

  /** Nothing the others do can hold the handler up, and the others go on between
      any two of its steps: every interleaving is a run of the system. */
  lemma WovenGoesOn(b: Smr.Bounds, ws: seq<Sys>, wsteps: seq<SysStep>, n: nat, ss: seq<Sys>, steps: seq<SysStep>)
      returns (t': Sys)
    requires Smr.Sound(b) && HandlerRun(b, ws, wsteps) && Woven(b, ws, wsteps, n, ss, steps) && n < |wsteps|
    ensures Woven(b, ws, wsteps, n + 1, ss + [t'], steps + [wsteps[n]])
    ensures forall st, t ::
              SysNext(b, ss[|ss| - 1], st, t) && OfOthers(st) ==> Woven(b, ws, wsteps, n, ss + [t], steps + [st])
  {
    hide SysNext, SysInv, SameWriter, OfHandler, OfOthers;
    WovenSame(b, ws, wsteps, n, ss, steps);
    RunInv(b, ss, steps, |ss| - 1);
    assert SysStepAt(b, ws, wsteps, n) && wsteps[n] in wsteps;
    t' := HandlerCan(b, ws[n], ss[|ss| - 1], wsteps[n], ws[n + 1]);
    SnocRun(b, ss, steps, wsteps[n], t');
    assert (steps + [wsteps[n]])[..|steps|] == steps;
    assert wsteps[..n + 1] == wsteps[..n] + [wsteps[n]];
    forall st, t | SysNext(b, ss[|ss| - 1], st, t) && OfOthers(st)
      ensures Woven(b, ws, wsteps, n, ss + [t], steps + [st])
    {
      SnocRun(b, ss, steps, st, t);
      assert (steps + [st])[..|steps|] == steps;
      NotBoth(st);
    }
  }

  lemma NotBoth(st: SysStep)
    requires OfOthers(st)
    ensures !OfHandler(st)
  {
  }
}
