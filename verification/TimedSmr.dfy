/** Timed memory reclamation as a protocol of steps.

    Readers note entry and exit in a node-local table of which other nodes see
    only copies.  The writer reads the copies, takes a minimum, subtracts the
    grace period and gives back what was stamped before.  Every read or write of
    a shared word is one step, and the clock ticks between any two steps. */
module TimedSmr {
  import opened Common
  import opened QscRing

  type Obj = nat

  /** How stale things may be: a copied table word is at most `age` old, a clock
      reading is at most `skew` behind. */
  datatype Bounds = Bounds(age: nat, skew: nat)

  ghost predicate Sound(b: Bounds) {
    b.age + b.skew < FLUSH_GRACE_PERIOD
  }

  /** Where a core is in bi_enter .. bi_exit: `tsc` is the clock it read, `began`
      the moment its section is open and it may read shared memory. */
  datatype Phase = Out | Clocked(tsc: nat) | HalfIn(tsc: nat) | Inside(tsc: nat, began: nat)

  /** A core's own table words, the copies others see, and when they were made. */
  datatype Core = Core(phase: Phase, own: Parsec, copy: Parsec, inAt: nat, outAt: nat)

  /** A freed object: when it was unlinked and, once in the ring, its stamp. */
  datatype Freed = Freed(obj: Obj, unlinked: nat, stamp: nat)

  /** Where the writer is in bi_smr_reclaim: reading the copy of the next core
      (the entry word possibly read already), or draining.  `tsc` is the clock it
      began with, and `read` the word pairs read so far. */
  datatype Writer =
    | Idle
    | Scan(start: nat, tsc: nat, min: nat, read: seq<Parsec>)
    | ScanOut(start: nat, tsc: nat, min: nat, read: seq<Parsec>, timeIn: nat)
    | Drain(start: nat, tsc: nat, min: nat, read: seq<Parsec>)

  datatype State = State(now: nat, cores: seq<Core>, cache: seq<Freed>, ring: seq<Freed>, last: nat, writer: Writer)

  datatype Step =
    | Tick(d: nat)
    | EnterClock(c: nat, tsc: nat)
    | EnterIn(c: nat)
    | EnterOut(c: nat)
    | Exit(c: nat)
    | CopyIn(c: nat)
    | CopyOut(c: nat)
    | Free(x: Obj, unlinked: nat)
    | Stamp(tsc: nat)
    | ReclaimBegin(tsc: nat)
    | ScanInStep
    | ScanOutStep
    | Return(x: Obj)
    | ReclaimEnd

  /** A reading of the global clock at time `now`. */
  ghost predicate ClockRead(b: Bounds, now: nat, tsc: nat) {
    now <= tsc + b.skew && tsc <= now && FLUSH_GRACE_PERIOD <= tsc
  }

  /** No copied word is too old: each node runs bi_time_flush often enough. */
  ghost predicate Fresh(b: Bounds, s: State) {
    forall c :: 0 <= c < |s.cores| ==> s.now <= s.cores[c].inAt + b.age && s.now <= s.cores[c].outAt + b.age
  }

  ghost predicate Init(s: State) {
    && s.writer == Idle && s.cache == [] && s.ring == [] && s.last == 0
    && forall c :: 0 <= c < |s.cores| ==>
         && s.cores[c].phase == Out && s.cores[c].own == Parsec(0, 1) && s.cores[c].copy == Parsec(0, 1)
         && s.cores[c].inAt == s.now && s.cores[c].outAt == s.now
  }

  ghost predicate CoreStep(s: State, s': State, c: nat, core': Core) {
    c < |s.cores| && s' == s.(cores := s.cores[c := core'])
  }

  ghost predicate Next(b: Bounds, s: State, step: Step, s': State) {
    match step
    case Tick(d) => s' == s.(now := s.now + d) && Fresh(b, s') && s'.now < WORD
    // bi_enter reads the clock, then writes the entry time, then the exit time
    case EnterClock(c, tsc) =>
      && c < |s.cores| && s.cores[c].phase == Out && ClockRead(b, s.now, tsc)
      && CoreStep(s, s', c, s.cores[c].(phase := Clocked(tsc)))
    case EnterIn(c) =>
      && c < |s.cores| && s.cores[c].phase.Clocked?
      && var tsc := s.cores[c].phase.tsc;
        CoreStep(s, s', c, s.cores[c].(phase := HalfIn(tsc), own := s.cores[c].own.(timeIn := tsc)))
    case EnterOut(c) =>
      && c < |s.cores| && s.cores[c].phase.HalfIn? && s.cores[c].phase.tsc > 0
      && var tsc := s.cores[c].phase.tsc;
        CoreStep(s, s', c, s.cores[c].(phase := Inside(tsc, s.now), own := s.cores[c].own.(timeOut := tsc - 1)))
    case Exit(c) =>
      && c < |s.cores| && s.cores[c].phase.Inside?
      && CoreStep(s, s', c, s.cores[c].(phase := Out, own := s.cores[c].own.(timeOut := s.cores[c].own.timeIn + 1)))
    // bi_time_flush copies word by word
    case CopyIn(c) =>
      && c < |s.cores|
      && CoreStep(s, s', c, s.cores[c].(copy := s.cores[c].copy.(timeIn := s.cores[c].own.timeIn), inAt := s.now))
    case CopyOut(c) =>
      && c < |s.cores|
      && CoreStep(s, s', c, s.cores[c].(copy := s.cores[c].copy.(timeOut := s.cores[c].own.timeOut), outAt := s.now))
    // bi_smr_free puts an unlinked object in the cache
    case Free(x, unlinked) =>
      && s.writer == Idle && unlinked <= s.now
      && s' == s.(cache := s.cache + [Freed(x, unlinked, 0)])
    // one entry of qsc_ring_enqueue_batch
    case Stamp(tsc) =>
      && s.writer == Idle && s.cache != [] && ClockRead(b, s.now, tsc) && s.last <= tsc
      && s' == s.(cache := s.cache[1..], ring := s.ring + [s.cache[0].(stamp := tsc)], last := tsc)
    case ReclaimBegin(tsc) =>
      && s.writer == Idle && s.ring != [] && ClockRead(b, s.now, tsc)
      && s' == s.(writer := Scan(s.now, tsc, tsc, []))
    case ScanInStep =>
      && s.writer.Scan? && |s.writer.read| < |s.cores|
      && var w := s.writer;
        s' == s.(writer := ScanOut(w.start, w.tsc, w.min, w.read, s.cores[|w.read|].copy.timeIn))
    case ScanOutStep =>
      && s.writer.ScanOut? && |s.writer.read| < |s.cores|
      && var w := s.writer;
        var t := Parsec(w.timeIn, s.cores[|w.read|].copy.timeOut);
        var min' := if InLib(t) && w.min > t.timeIn then t.timeIn else w.min;
        var read' := w.read + [t];
        s' == s.(writer := if |read'| == |s.cores| then Drain(w.start, w.tsc, min', read')
                           else Scan(w.start, w.tsc, min', read'))
    case Return(x) =>
      && s.writer.Drain? && s.ring != [] && s.ring[0].stamp <= QuiesceCache(s.writer.min) && s.ring[0].obj == x
      && s' == s.(ring := s.ring[1..])
    case ReclaimEnd =>
      && s.writer.Drain? && (s.ring == [] || s.ring[0].stamp > QuiesceCache(s.writer.min))
      && s' == s.(writer := Idle)
  }

  // ---- invariant ---------------------------------------------------------------

  /** A section's own words are in place, and a copy that does not show it is
      no younger than its beginning. */
  ghost predicate CoreInv(now: nat, core: Core) {
    && (core.own.timeIn == 0 || FLUSH_GRACE_PERIOD <= core.own.timeIn <= now)
    && (core.copy.timeIn == 0 || FLUSH_GRACE_PERIOD <= core.copy.timeIn <= now)
    && core.own.timeOut >= 1 && core.copy.timeOut >= 1
    && core.inAt <= now && core.outAt <= now
    && (core.phase.Out? || core.phase.Clocked? ==> core.own.timeOut == core.own.timeIn + 1)
    && (core.phase != Out ==> FLUSH_GRACE_PERIOD <= core.phase.tsc <= now)
    && (core.phase.HalfIn? ==> core.own.timeIn == core.phase.tsc)
    && (core.phase.Inside? ==>
          && core.own == Parsec(core.phase.tsc, core.phase.tsc - 1)
          && core.phase.tsc <= core.phase.began <= now
          && (core.copy.timeIn == core.phase.tsc || core.inAt <= core.phase.began)
          && (core.copy.timeOut == core.phase.tsc - 1 || core.outAt <= core.phase.began))
  }

  ghost predicate FreedInv(b: Bounds, s: State, bound: nat, f: Freed) {
    f.unlinked <= bound && f.unlinked <= f.stamp + b.skew
  }

  ghost predicate Covers(b: Bounds, start: nat, min: nat, core: Core) {
    core.phase.Inside? ==> min <= core.phase.tsc || start <= core.phase.began + b.age
  }

  ghost predicate MinInv(s: State, start: nat, min: nat) {
    start <= s.now && FLUSH_GRACE_PERIOD <= min <= start
  }

  ghost predicate WriterInv(b: Bounds, s: State) {
    match s.writer
    case Idle => true
    case Scan(start, _, min, read) =>
      && MinInv(s, start, min) && |read| < |s.cores|
      && (forall c :: 0 <= c < |read| ==> Covers(b, start, min, s.cores[c]))
    case ScanOut(start, _, min, read, timeIn) =>
      && MinInv(s, start, min) && |read| < |s.cores|
      && (timeIn == 0 || FLUSH_GRACE_PERIOD <= timeIn)
      && (forall c :: 0 <= c < |read| ==> Covers(b, start, min, s.cores[c]))
      && (s.cores[|read|].phase.Inside? ==>
            timeIn == s.cores[|read|].phase.tsc || start <= s.cores[|read|].phase.began + b.age)
    case Drain(start, _, min, read) =>
      && MinInv(s, start, min)
      && (forall c :: 0 <= c < |s.cores| ==> Covers(b, start, min, s.cores[c]))
  }

  /** When the ring was last appended to, nothing in it was unlinked later. */
  function Horizon(s: State): nat {
    if s.writer.Idle? then s.now else s.writer.start
  }

  ghost predicate Ordered(ring: seq<Freed>, last: nat) {
    && (forall i, j :: 0 <= i < j < |ring| ==> ring[i].stamp <= ring[j].stamp)
    && (forall i :: 0 <= i < |ring| ==> ring[i].stamp <= last)
  }

  ghost predicate Inv(b: Bounds, s: State) {
    && |s.cores| > 0 && s.now < WORD && Fresh(b, s)
    && (forall c :: 0 <= c < |s.cores| ==> CoreInv(s.now, s.cores[c]))
    && (forall i :: 0 <= i < |s.cache| ==> s.cache[i].unlinked <= s.now)
    && (forall i :: 0 <= i < |s.ring| ==> FreedInv(b, s, Horizon(s), s.ring[i]))
    && Ordered(s.ring, s.last)
    && WriterInv(b, s)
  }

  lemma InitInv(b: Bounds, s: State)
    requires Init(s) && |s.cores| > 0 && s.now < WORD
    ensures Inv(b, s)
  {
  }

  /** The subtraction of the grace period never wraps in a reachable state. */
  lemma NoWrap(time: nat)
    requires FLUSH_GRACE_PERIOD <= time < WORD
    ensures QuiesceCache(time) == time - FLUSH_GRACE_PERIOD
  {
    assert time + WORD - FLUSH_GRACE_PERIOD == WORD + (time - FLUSH_GRACE_PERIOD);
  }

  /** A step of one core: its section goes on as it was, ends, or begins now. */
  lemma OneCoreInv(b: Bounds, s: State, s': State, c: nat, core': Core)
    requires Inv(b, s) && CoreStep(s, s', c, core') && CoreInv(s.now, core')
    requires s.now <= core'.inAt + b.age && s.now <= core'.outAt + b.age
    requires core'.phase.Inside? ==> core'.phase == s.cores[c].phase || core'.phase.began == s.now
    ensures Inv(b, s')
  {
    hide CoreInv, InLib;
    forall i | 0 <= i < |s'.cores| ensures CoreInv(s'.now, s'.cores[i]) {
      assert CoreInv(s.now, s.cores[i]);
    }
    forall i, start: nat, min: nat | 0 <= i < |s.cores| && Covers(b, start, min, s.cores[i]) && start <= s.now
      ensures Covers(b, start, min, s'.cores[i])
    {
    }
    forall i | 0 <= i < |s.ring| ensures FreedInv(b, s', Horizon(s'), s'.ring[i]) {
      assert FreedInv(b, s, Horizon(s), s.ring[i]);
    }
  }

  lemma EnterInv(b: Bounds, s: State, step: Step, s': State)
    requires Inv(b, s) && Next(b, s, step, s') && (step.EnterClock? || step.EnterIn? || step.EnterOut? || step.Exit?)
    ensures Inv(b, s')
  {
    hide WriterInv, FreedInv, Ordered, Covers;
    assert CoreInv(s.now, s.cores[step.c]);
    OneCoreInv(b, s, s', step.c, s'.cores[step.c]);
  }

  lemma CopyInv(b: Bounds, s: State, step: Step, s': State)
    requires Inv(b, s) && Next(b, s, step, s') && (step.CopyIn? || step.CopyOut?)
    ensures Inv(b, s')
  {
    hide InLib, WriterInv, FreedInv, Ordered, Covers;
    assert CoreInv(s.now, s.cores[step.c]);
    OneCoreInv(b, s, s', step.c, s'.cores[step.c]);
  }

  lemma QueueInv(b: Bounds, s: State, step: Step, s': State)
    requires Inv(b, s) && Next(b, s, step, s')
    requires step.Tick? || step.Free? || step.Stamp?
    ensures Inv(b, s')
  {
  }

  lemma ReclaimInv(b: Bounds, s: State, step: Step, s': State)
    requires Inv(b, s) && Next(b, s, step, s')
    requires step.ReclaimBegin? || step.ScanInStep? || step.Return? || step.ReclaimEnd?
    ensures Inv(b, s')
  {
  }

  lemma ScanOutInv(b: Bounds, s: State, s': State)
    requires Inv(b, s) && Next(b, s, ScanOutStep, s')
    ensures Inv(b, s')
  {
  }

  /** Every step keeps the invariant. */
  lemma NextInv(b: Bounds, s: State, step: Step, s': State)
    requires Inv(b, s) && Next(b, s, step, s')
    ensures Inv(b, s')
  {
    hide Inv, Next;
    if step.ScanOutStep? {
      ScanOutInv(b, s, s');
    } else if step.EnterClock? || step.EnterIn? || step.EnterOut? || step.Exit? {
      EnterInv(b, s, step, s');
    } else if step.CopyIn? || step.CopyOut? {
      CopyInv(b, s, step, s');
    } else if step.Tick? || step.Free? || step.Stamp? {
      QueueInv(b, s, step, s');
    } else {
      ReclaimInv(b, s, step, s');
    }
  }

  /** The safety of reclamation: when an object goes back to its slab, every
      section still open began after the object was unlinked. */
  lemma ReturnIsSafe(b: Bounds, s: State, x: Obj, s': State, c: nat)
    requires Sound(b) && Inv(b, s) && Next(b, s, Return(x), s')
    requires c < |s.cores| && s.cores[c].phase.Inside?
    ensures s.ring[0].unlinked < s.cores[c].phase.began
  {
    NoWrap(s.writer.min);
    assert Covers(b, s.writer.start, s.writer.min, s.cores[c]);
    assert FreedInv(b, s, Horizon(s), s.ring[0]);
  }

  // ---- runs ----------------------------------------------------------------------

  ghost predicate NextAt(b: Bounds, ss: seq<State>, steps: seq<Step>, i: nat)
    requires i + 1 < |ss| && |steps| + 1 == |ss|
  {
    Next(b, ss[i], steps[i], ss[i + 1])
  }

  ghost predicate Run(b: Bounds, ss: seq<State>, steps: seq<Step>) {
    && |steps| + 1 == |ss| && Init(ss[0]) && |ss[0].cores| > 0 && ss[0].now < WORD
    && forall i: nat :: i + 1 < |ss| ==> NextAt(b, ss, steps, i)
  }

  /** The invariant holds in every reachable state. */
  lemma {:induction false} Reachable(b: Bounds, ss: seq<State>, steps: seq<Step>, i: nat)
    requires Run(b, ss, steps) && i < |ss|
    ensures Inv(b, ss[i])
    decreases i
  {
    hide Inv, Next, Init;
    if i == 0 {
      InitInv(b, ss[0]);
    } else {
      assert NextAt(b, ss, steps, i - 1);
      Reachable(b, ss, steps, i - 1);
      NextInv(b, ss[i - 1], steps[i - 1], ss[i]);
    }
  }

  /** In every run, whenever an object goes back to its slab, every section then
      open began after the object was unlinked. */
  lemma RunIsSafe(b: Bounds, ss: seq<State>, steps: seq<Step>, i: nat, c: nat)
    requires Sound(b) && Run(b, ss, steps) && i < |steps| && steps[i].Return?
    requires c < |ss[i].cores| && ss[i].cores[c].phase.Inside?
    ensures ss[i].ring != [] && ss[i].ring[0].obj == steps[i].x && ss[i].ring[0].unlinked < ss[i].cores[c].phase.began
  {
    hide Inv, Init;
    Reachable(b, ss, steps, i);
    assert NextAt(b, ss, steps, i);
    ReturnIsSafe(b, ss[i], steps[i].x, ss[i + 1], c);
  }

  // ---- what the scan computes ------------------------------------------------------

  /** The minimum of the scan is the least of the clock it began with and of the
      entry times of those word pairs read that show a core inside; a finished scan
      has read a pair of every core. */
  ghost predicate Scanned(s: State) {
    match s.writer
    case Idle => true
    case Scan(_, tsc, min, read) => |read| < |s.cores| && IsQuiescent(min, tsc, [read])
    case ScanOut(_, tsc, min, read, _) => |read| < |s.cores| && IsQuiescent(min, tsc, [read])
    case Drain(_, tsc, min, read) => |read| == |s.cores| && IsQuiescent(min, tsc, [read])
  }

  lemma QuiescentNone(tsc: nat)
    ensures IsQuiescent(tsc, tsc, [[]])
  {
  }

  /** One more word pair. */
  lemma QuiescentMore(min: nat, tsc: nat, read: seq<Parsec>, t: Parsec)
    requires IsQuiescent(min, tsc, [read])
    ensures IsQuiescent(if InLib(t) && min > t.timeIn then t.timeIn else min, tsc, [read + [t]])
  {
    var min' := if InLib(t) && min > t.timeIn then t.timeIn else min;
    var read' := read + [t];
    var table, table' := [read], [read'];
    assert table[0] == read && table'[0] == read';
    if min' == t.timeIn && min' != min {
      assert InLib(table'[0][|read|]) && table'[0][|read|].timeIn == min';
    } else if min != tsc {
      var n, c :| 0 <= n < |table| && 0 <= c < |table[n]| && InLib(table[n][c]) && min == table[n][c].timeIn;
      assert table'[0][c] == read[c];
    }
    forall n, c | 0 <= n < |table'| && 0 <= c < |table'[n]| && InLib(table'[n][c]) ensures min' <= table'[n][c].timeIn {
      if c < |read| {
        assert table[0][c] == table'[0][c];
      }
    }
  }

  lemma ScannedNext(b: Bounds, s: State, step: Step, s': State)
    requires |s.cores| > 0 && Scanned(s) && Next(b, s, step, s')
    ensures Scanned(s') && |s'.cores| == |s.cores|
  {
    hide IsQuiescent, InLib;
    if step.ReclaimBegin? {
      QuiescentNone(step.tsc);
    } else if step.ScanOutStep? {
      var w := s.writer;
      QuiescentMore(w.min, w.tsc, w.read, Parsec(w.timeIn, s.cores[|w.read|].copy.timeOut));
    }
  }

  /** In every run the minimum is exactly that. */
  lemma {:induction false} ReachableScan(b: Bounds, ss: seq<State>, steps: seq<Step>, i: nat)
    requires Run(b, ss, steps) && i < |ss|
    ensures Scanned(ss[i]) && |ss[i].cores| == |ss[0].cores|
    decreases i
  {
    hide Scanned, Next;
    if i == 0 {
      assert Scanned(ss[0]) by { IdleScanned(ss[0]); }
    } else {
      assert NextAt(b, ss, steps, i - 1);
      ReachableScan(b, ss, steps, i - 1);
      ScannedNext(b, ss[i - 1], steps[i - 1], ss[i]);
    }
  }

  lemma IdleScanned(s: State)
    requires s.writer.Idle?
    ensures Scanned(s)
  {
  }

  // ---- readers that are out hold nothing back --------------------------------------

  /** Every core is out, and its copy is up to date. */
  ghost predicate Quiet(s: State) {
    forall c :: 0 <= c < |s.cores| ==> s.cores[c].phase.Out? && s.cores[c].copy == s.cores[c].own
  }

  /** The scan has seen nobody inside. */
  ghost predicate NobodySeen(s: State, tsc: nat) {
    match s.writer
    case Idle => false
    case Scan(_, tsc', min, read) => tsc' == tsc == min
    case ScanOut(_, tsc', min, read, timeIn) =>
      tsc' == tsc == min && |read| < |s.cores| && timeIn == s.cores[|read|].own.timeIn
    case Drain(_, tsc', min, read) => tsc' == tsc == min
  }

  lemma NobodySeenNext(b: Bounds, s: State, step: Step, s': State, tsc: nat)
    requires Inv(b, s) && Next(b, s, step, s') && Quiet(s) && Quiet(s')
    requires NobodySeen(s, tsc) && !step.ReclaimEnd?
    ensures NobodySeen(s', tsc)
  {
    if step.ScanOutStep? {
      assert CoreInv(s.now, s.cores[|s.writer.read|]);
    }
    hide Inv;
  }

  /** While all cores stay out with copies up to date, a scan gives the clock
      reading it began with, whatever their last sections were. */
  lemma {:induction false} QuietScan(b: Bounds, ss: seq<State>, steps: seq<Step>, i: nat, j: nat)
    requires Run(b, ss, steps) && i < j < |ss| && steps[i].ReclaimBegin?
    requires forall k :: i <= k <= j ==> Quiet(ss[k])
    requires forall k :: i < k < j ==> !steps[k].ReclaimEnd?
    ensures NobodySeen(ss[j], steps[i].tsc)
    decreases j
  {
    hide Inv, Next, Quiet, NobodySeen;
    assert NextAt(b, ss, steps, j - 1);
    if j == i + 1 {
      Begun(b, ss[i], steps[i], ss[j]);
    } else {
      QuietScan(b, ss, steps, i, j - 1);
      Reachable(b, ss, steps, j - 1);
      NobodySeenNext(b, ss[j - 1], steps[j - 1], ss[j], steps[i].tsc);
    }
  }

  lemma Begun(b: Bounds, s: State, step: Step, s': State)
    requires Next(b, s, step, s') && step.ReclaimBegin?
    ensures NobodySeen(s', step.tsc)
  {
  }

  /** And then everything stamped a grace period before can go back. */
  lemma HeadReturns(b: Bounds, s: State)
    requires Inv(b, s) && s.writer.Drain? && s.writer.min == s.writer.tsc
    requires s.ring != [] && s.ring[0].stamp + FLUSH_GRACE_PERIOD <= s.writer.tsc
    ensures Next(b, s, Return(s.ring[0].obj), s.(ring := s.ring[1..]))
  {
    NoWrap(s.writer.min);
  }

  /** Nothing holds a reader up: in every phase the next step of its section is
      possible, and so is copying its words. */
  lemma ReaderGoesOn(b: Bounds, s: State, c: nat, tsc: nat) returns (step: Step, s': State)
    requires Inv(b, s) && c < |s.cores| && ClockRead(b, s.now, tsc)
    ensures Next(b, s, step, s')
    ensures step == match s.cores[c].phase
                    case Out => EnterClock(c, tsc)
                    case Clocked(_) => EnterIn(c)
                    case HalfIn(_) => EnterOut(c)
                    case Inside(_, _) => Exit(c)
  {
    assert CoreInv(s.now, s.cores[c]);
    hide Inv;
    var core := s.cores[c];
    match core.phase
    case Out =>
      step, s' := EnterClock(c, tsc), s.(cores := s.cores[c := core.(phase := Clocked(tsc))]);
    case Clocked(t) =>
      step, s' := EnterIn(c), s.(cores := s.cores[c := core.(phase := HalfIn(t), own := core.own.(timeIn := t))]);
    case HalfIn(t) =>
      step := EnterOut(c);
      s' := s.(cores := s.cores[c := core.(phase := Inside(t, s.now), own := core.own.(timeOut := t - 1))]);
    case Inside(_, _) =>
      step := Exit(c);
      s' := s.(cores := s.cores[c := core.(phase := Out, own := core.own.(timeOut := core.own.timeIn + 1))]);
  }

  lemma CopyGoesOn(b: Bounds, s: State, c: nat) returns (s1: State, s2: State)
    requires c < |s.cores|
    ensures Next(b, s, CopyIn(c), s1) && Next(b, s1, CopyOut(c), s2)
    ensures s2 == s.(cores := s.cores[c := s.cores[c].(copy := s.cores[c].own, inAt := s.now, outAt := s.now)])
  {
    s1 := s.(cores := s.cores[c := s.cores[c].(copy := s.cores[c].copy.(timeIn := s.cores[c].own.timeIn),
                                               inAt := s.now)]);
    s2 := s.(cores := s.cores[c := s.cores[c].(copy := s.cores[c].own, inAt := s.now, outAt := s.now)]);
  }
}
