/** The writer's methods on ring and table are runs of the protocol's single
    steps. */
module ReclaimRuns {
  import opened Common
  import opened QscRing
  import opened TimedSmr

  /** A stretch of steps from any state. */
  ghost predicate Steps(b: Bounds, ss: seq<State>, steps: seq<Step>) {
    && |steps| + 1 == |ss|
    && forall i: nat :: i + 1 < |ss| ==> NextAt(b, ss, steps, i)
  }

  lemma Extend(b: Bounds, ss: seq<State>, steps: seq<Step>, st: Step, s': State)
    requires Steps(b, ss, steps) && Next(b, ss[|ss| - 1], st, s')
    ensures Steps(b, ss + [s'], steps + [st])
  {
    hide Next;
    var ss', steps' := ss + [s'], steps + [st];
    forall i: nat | i + 1 < |ss'| ensures NextAt(b, ss', steps', i) {
      if i + 1 < |ss| {
        assert NextAt(b, ss, steps, i);
      }
    }
  }

  /** The ring of the protocol is the ring of the program. */
  ghost predicate Mirrors(items: seq<QuiesItem>, ring: seq<Freed>) {
    && |items| == |ring|
    && forall i :: 0 <= i < |ring| ==> items[i].mh == ring[i].obj && items[i].tscFree == ring[i].stamp
  }

  /** So is the cache. */
  ghost predicate MirrorsCache(m: seq<nat>, cache: seq<Freed>) {
    |m| == |cache| && forall i :: 0 <= i < |cache| ==> m[i] == cache[i].obj
  }

  /** The copies of all cores are what the table shows, in whatever order. */
  ghost predicate SameEntries(s: State, table: seq<seq<Parsec>>) {
    && (forall n, c :: 0 <= n < |table| && 0 <= c < |table[n]| ==> Copied(s, table[n][c]))
    && (forall i :: 0 <= i < |s.cores| ==> Listed(table, s.cores[i].copy))
  }

  ghost predicate Copied(s: State, t: Parsec) {
    exists i :: 0 <= i < |s.cores| && s.cores[i].copy == t
  }

  ghost predicate Listed(table: seq<seq<Parsec>>, t: Parsec) {
    exists n, c :: 0 <= n < |table| && 0 <= c < |table[n]| && table[n][c] == t
  }

  function Copies(s: State, n: nat): (r: seq<Parsec>)
    requires n <= |s.cores|
    ensures |r| == n
  {
    seq(n, i requires 0 <= i < n => s.cores[i].copy)
  }

  /** There is one least value, whatever the order of the table. */
  lemma OneMinimum(s: State, table: seq<seq<Parsec>>, time: nat, q: nat, q': nat)
    requires SameEntries(s, table)
    requires IsQuiescent(q, time, [Copies(s, |s.cores|)]) && IsQuiescent(q', time, table)
    ensures q == q'
  {
    var row := Copies(s, |s.cores|);
    var rows := [row];
    if q != time {
      var n, c :| 0 <= n < |rows| && 0 <= c < |rows[n]| && InLib(rows[n][c]) && q == rows[n][c].timeIn;
      assert Listed(table, s.cores[c].copy);
      assert q' <= q;
    }
    if q' != time {
      var n, c :| 0 <= n < |table| && 0 <= c < |table[n]| && InLib(table[n][c]) && q' == table[n][c].timeIn;
      assert Copied(s, table[n][c]);
      var i :| 0 <= i < |s.cores| && s.cores[i].copy == table[n][c];
      assert rows[0][i] == table[n][c];
      assert q <= q';
    }
  }

  /** The scan, core by core, while nothing else happens. */
  lemma {:induction false} ScanRun(b: Bounds, s: State, tsc: nat, n: nat)
      returns (ss: seq<State>, steps: seq<Step>, min: nat)
    requires s.writer.Idle? && s.ring != [] && ClockRead(b, s.now, tsc) && 0 < |s.cores| && n <= |s.cores|
    ensures Steps(b, ss, steps) && ss[0] == s && IsQuiescent(min, tsc, [Copies(s, n)])
    ensures ss[|ss| - 1] == s.(writer := if n < |s.cores| then Scan(s.now, tsc, min, Copies(s, n))
                                         else Drain(s.now, tsc, min, Copies(s, n)))
    decreases n
  {
    hide IsQuiescent, InLib;
    if n == 0 {
      var s' := s.(writer := Scan(s.now, tsc, tsc, []));
      ss, steps, min := [s], [], tsc;
      Extend(b, ss, steps, ReclaimBegin(tsc), s');
      ss, steps := [s, s'], [ReclaimBegin(tsc)];
      QuiescentNone(tsc);
      assert Copies(s, 0) == [];
    } else {
      ss, steps, min := ScanRun(b, s, tsc, n - 1);
      var read := Copies(s, n - 1);
      var t := s.cores[n - 1].copy;
      var half := s.(writer := ScanOut(s.now, tsc, min, read, t.timeIn));
      Extend(b, ss, steps, ScanInStep, half);
      ss, steps := ss + [half], steps + [ScanInStep];
      QuiescentMore(min, tsc, read, t);
      min := if InLib(t) && min > t.timeIn then t.timeIn else min;
      assert Copies(s, n) == read + [t];
      var s' := s.(writer := if n < |s.cores| then Scan(s.now, tsc, min, Copies(s, n))
                             else Drain(s.now, tsc, min, Copies(s, n)));
      ScanOutDoes(b, half, s');
      Extend(b, ss, steps, ScanOutStep, s');
      ss, steps := ss + [s'], steps + [ScanOutStep];
    }
  }

  lemma ScanOutDoes(b: Bounds, s: State, s': State)
    requires s.writer.ScanOut? && |s.writer.read| < |s.cores|
    requires var w := s.writer; var t := Parsec(w.timeIn, s.cores[|w.read|].copy.timeOut);
             var min := if InLib(t) && w.min > t.timeIn then t.timeIn else w.min;
             s' == s.(writer := if |w.read| + 1 == |s.cores| then Drain(w.start, w.tsc, min, w.read + [t])
                                else Scan(w.start, w.tsc, min, w.read + [t]))
    ensures Next(b, s, ScanOutStep, s')
  {
  }

  /** The first `n` entries go back, one by one. */
  lemma {:induction false} DrainRun(b: Bounds, s: State, n: nat) returns (ss: seq<State>, steps: seq<Step>)
    requires s.writer.Drain? && n <= |s.ring|
    requires forall i :: 0 <= i < n ==> s.ring[i].stamp <= QuiesceCache(s.writer.min)
    ensures Steps(b, ss, steps) && ss[0] == s && ss[|ss| - 1] == s.(ring := s.ring[n..])
    ensures |steps| == n && forall i :: 0 <= i < n ==> steps[i] == Return(s.ring[i].obj)
    decreases n
  {
    if n == 0 {
      ss, steps := [s], [];
      assert s.ring[0..] == s.ring;
    } else {
      ss, steps := DrainRun(b, s, n - 1);
      var s' := s.(ring := s.ring[n..]);
      assert s.ring[n - 1..][1..] == s.ring[n..];
      Extend(b, ss, steps, Return(s.ring[n - 1].obj), s');
      ss, steps := ss + [s'], steps + [Return(s.ring[n - 1].obj)];
    }
  }

  lemma Joined(b: Bounds, ss: seq<State>, steps: seq<Step>, ts: seq<State>, ups: seq<Step>)
    requires Steps(b, ss, steps) && Steps(b, ts, ups) && ts[0] == ss[|ss| - 1]
    ensures Steps(b, ss + ts[1..], steps + ups) && (ss + ts[1..])[|ss + ts[1..]| - 1] == ts[|ts| - 1]
  {
    hide Next;
    var all, asteps := ss + ts[1..], steps + ups;
    forall i: nat | i + 1 < |all| ensures NextAt(b, all, asteps, i) {
      if i + 1 < |ss| {
        assert NextAt(b, ss, steps, i);
      } else {
        var k := i + 1 - |ss|;
        assert NextAt(b, ts, ups, k);
        assert all[i] == ts[k] && all[i + 1] == ts[k + 1] && asteps[i] == ups[k];
      }
    }
  }

  /** bi_smr_reclaim is a run of the protocol: it begins, reads every core's pair,
      returns the same objects in the same order, and ends. */
  method ReclaimAsSteps(r: Reclaimer, ghost b: Bounds, ghost s: State, tsc: nat, table: seq<seq<Parsec>>, curr: nat)
      returns (i: nat, ghost ss: seq<State>, ghost steps: seq<Step>)
    requires r.Valid() && Mirrors(r.Queue(), s.ring) && s.writer.Idle? && 0 < |s.cores|
    requires curr < |table| && tsc < WORD && SameEntries(s, table) && ClockRead(b, s.now, tsc)
    modifies r`head, r`returned
    ensures r.Valid() && Steps(b, ss, steps) && ss[0] == s
    ensures i <= |s.ring| && ss[|ss| - 1] == s.(ring := s.ring[i..]) && Mirrors(r.Queue(), s.ring[i..])
    ensures |r.returned| == |old(r.returned)| + i && r.returned[..|old(r.returned)|] == old(r.returned)
    ensures forall k :: 0 <= k < i ==> r.returned[|old(r.returned)| + k] == s.ring[k].obj
  {
    hide IsQuiescent, SameEntries, QuiesceCache, Reclaimer.Shape, InOrder, Reclaimer.Queue;
    ghost var items := r.Queue();
    ghost var qsc;
    i, qsc := r.SmrReclaim(tsc, table, curr);
    if items == [] {
      ss, steps := [s], [];
      assert s.ring[0..] == s.ring;
    } else {
      ghost var min: nat :| IsQuiescent(min, tsc, table) && qsc == QuiesceCache(min);
      ghost var min', ts, ups;
      ss, steps, min' := ScanRun(b, s, tsc, |s.cores|);
      OneMinimum(s, table, tsc, min', min);
      ts, ups := DrainRun(b, ss[|ss| - 1], i);
      Joined(b, ss, steps, ts, ups);
      ss, steps := ss + ts[1..], steps + ups;
      Ends(b, ss[|ss| - 1], items, i, s.ring, qsc);
      Extend(b, ss, steps, ReclaimEnd, s.(ring := s.ring[i..]));
      ss, steps := ss + [s.(ring := s.ring[i..])], steps + [ReclaimEnd];
    }
  }

  lemma Ends(b: Bounds, s: State, items: seq<QuiesItem>, i: nat, ring: seq<Freed>, qsc: nat)
    requires s.writer.Drain? && i <= |items| && Mirrors(items, ring) && s.ring == ring[i..]
    requires qsc == QuiesceCache(s.writer.min)
    requires forall k :: 0 <= k < |items| - i ==> items[i..][k].tscFree > qsc
    ensures Next(b, s, ReclaimEnd, s.(writer := Idle))
  {
    if s.ring != [] {
      assert items[i..][0] == items[i];
    }
  }

  /** Every entry of the cache is stamped and goes to the ring, while nothing else
      happens. */
  lemma {:induction false} StampRun(b: Bounds, s: State, stamps: seq<nat>, n: nat)
      returns (ss: seq<State>, steps: seq<Step>)
    requires s.writer.Idle? && n <= |s.cache| && n <= |stamps| && Rising(stamps, s.last)
    requires forall i :: 0 <= i < n ==> ClockRead(b, s.now, stamps[i])
    ensures Steps(b, ss, steps) && ss[0] == s
    ensures ss[|ss| - 1] == s.(cache := s.cache[n..], ring := s.ring + WithStamps(s.cache[..n], stamps),
                               last := if n == 0 then s.last else stamps[n - 1])
    decreases n
  {
    hide ClockRead;
    if n == 0 {
      ss, steps := [s], [];
      assert s.cache[0..] == s.cache && s.ring + WithStamps(s.cache[..0], stamps) == s.ring;
    } else {
      ss, steps := StampRun(b, s, stamps, n - 1);
      var t := ss[|ss| - 1];
      var s' := s.(cache := s.cache[n..], ring := s.ring + WithStamps(s.cache[..n], stamps), last := stamps[n - 1]);
      assert t.cache[1..] == s.cache[n..] && t.cache[0] == s.cache[n - 1];
      assert WithStamps(s.cache[..n], stamps)
          == WithStamps(s.cache[..n - 1], stamps) + [s.cache[n - 1].(stamp := stamps[n - 1])];
      Extend(b, ss, steps, Stamp(stamps[n - 1]), s');
      ss, steps := ss + [s'], steps + [Stamp(stamps[n - 1])];
    }
  }

  function WithStamps(cache: seq<Freed>, stamps: seq<nat>): (r: seq<Freed>)
    requires |cache| <= |stamps|
    ensures |r| == |cache|
  {
    seq(|cache|, i requires 0 <= i < |cache| => cache[i].(stamp := stamps[i]))
  }

  /** bi_smr_free is a run of the protocol: the object joins the cache, and a full
      cache is stamped into the ring, unless that has no room. */
  method FreeAsSteps(r: Reclaimer, ghost b: Bounds, ghost s: State, mh: nat, size: nat, stamps: seq<nat>,
      ghost unlinked: nat)
      returns (ok: bool, ghost ss: seq<State>, ghost steps: seq<Step>)
    requires r.Valid() && r.cnt < LOCAL_CACHE_QUEUE_SZ && |stamps| > r.cnt && Rising(stamps, r.last)
    requires Mirrors(r.Queue(), s.ring) && MirrorsCache(r.m[..r.cnt], s.cache) && r.last == s.last
    requires s.writer.Idle? && unlinked <= s.now
    requires forall i :: 0 <= i < |stamps| ==> ClockRead(b, s.now, stamps[i])
    modifies r`tail, r`cnt, r`last, r.ring, r.m, r.sz
    ensures r.Valid() && (ok ==> Steps(b, ss, steps) && ss[0] == s)
    ensures ok ==> var s' := ss[|ss| - 1];
      Mirrors(r.Queue(), s'.ring) && MirrorsCache(r.m[..r.cnt], s'.cache) && r.last == s'.last && s'.writer.Idle?
  {
    hide ClockRead, Slots;
    ghost var items, m0 := r.Queue(), r.m[..r.cnt];
    ok := r.SmrFree(mh, size, stamps);
    ss, steps := [s], [];
    if ok {
      ghost var s1 := s.(cache := s.cache + [Freed(mh, unlinked, 0)]);
      Extend(b, ss, steps, Free(mh, unlinked), s1);
      ss, steps := [s, s1], [Free(mh, unlinked)];
      assert MirrorsCache(m0 + [mh], s1.cache);
      if r.cnt == 0 {
        ghost var n := |s1.cache|;
        ghost var ts, ups := StampRun(b, s1, stamps, n);
        assert s1.cache[..n] == s1.cache && s1.cache[n..] == [];
        Joined(b, ss, steps, ts, ups);
        ss, steps := ss + ts[1..], steps + ups;
      }
    }
  }
}
