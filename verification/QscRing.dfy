/** The writer's side of timed reclamation: the batching cache, the ring of
    time-stamped freed objects, the quiescence computation and the reclaim loop. */
module QscRing {
  import opened Common

  const MAX_QUI_RING_LEN: nat := 524288
  const LOCAL_CACHE_QUEUE_SZ: nat := 4096
  const QUISE_FLUSH_PERIOD: nat := 2000000
  const FLUSH_GRACE_PERIOD: nat := 5 * QUISE_FLUSH_PERIOD

  /** An object header address, its size, and the time it entered the ring. */
  datatype QuiesItem = QuiesItem(mh: nat, sz: nat, tscFree: nat)

  /** Entry and exit time of one core's current or last read section. */
  datatype Parsec = Parsec(timeIn: nat, timeOut: nat)

  predicate InLib(ps: Parsec) {
    ps.timeOut <= ps.timeIn
  }

  /** 64-bit unsigned subtraction of the grace period. */
  function QuiesceCache(time: nat): nat {
    (time + WORD - FLUSH_GRACE_PERIOD) % WORD
  }

  /** The entries a reclaim with quiescent time `qsc` takes off the front. */
  function Expired(items: seq<QuiesItem>, qsc: nat): nat {
    if items == [] || items[0].tscFree > qsc then 0 else 1 + Expired(items[1..], qsc)
  }

  ghost predicate Sorted(items: seq<QuiesItem>) {
    forall i, j :: 0 <= i < j < |items| ==> items[i].tscFree <= items[j].tscFree
  }

  /** The stamps never decrease, and the latest is not after `last`. */
  ghost predicate InOrder(items: seq<QuiesItem>, last: nat) {
    Sorted(items) && forall i :: 0 <= i < |items| ==> items[i].tscFree <= last
  }

  /** Readings of one clock, none before `last`. */
  ghost predicate Rising(stamps: seq<nat>, last: nat) {
    && (forall i :: 0 <= i < |stamps| ==> last <= stamps[i])
    && forall i, j :: 0 <= i < j < |stamps| ==> stamps[i] <= stamps[j]
  }

  /** Entries stamped by later readings keep the order. */
  lemma InOrderAppend(items: seq<QuiesItem>, last: nat, m: seq<nat>, sz: seq<nat>, stamps: seq<nat>)
    requires InOrder(items, last) && |m| == |sz| && |m| <= |stamps| && Rising(stamps, last)
    ensures InOrder(items + Stamped(m, sz, stamps), if m == [] then last else stamps[|m| - 1])
  {
    var more := Stamped(m, sz, stamps);
    var all := items + more;
    assert forall i :: |items| <= i < |all| ==> all[i] == more[i - |items|];
  }

  lemma InOrderRest(items: seq<QuiesItem>, last: nat, i: nat)
    requires InOrder(items, last) && i <= |items|
    ensures InOrder(items[i..], last)
  {
    assert forall k :: 0 <= k < |items| - i ==> items[i..][k] == items[i + k];
  }

  /** With stamps in order, the front that expires is exactly the entries
      stamped at or before the quiescent time. */
  lemma {:induction false} ExpiredExactly(items: seq<QuiesItem>, qsc: nat)
    ensures Expired(items, qsc) <= |items|
    ensures forall i :: 0 <= i < Expired(items, qsc) ==> items[i].tscFree <= qsc
    ensures Sorted(items) ==> forall i :: Expired(items, qsc) <= i < |items| ==> items[i].tscFree > qsc
    decreases |items|
  {
    if items != [] && items[0].tscFree <= qsc {
      ExpiredExactly(items[1..], qsc);
      var n := Expired(items[1..], qsc);
      forall i | 0 <= i < n + 1 ensures items[i].tscFree <= qsc {
        if i > 0 {
          assert items[i] == items[1..][i - 1];
        }
      }
      if Sorted(items) {
        forall i | n + 1 <= i < |items| ensures items[i].tscFree > qsc {
          assert items[i] == items[1..][i - 1];
        }
      }
    }
  }

  lemma InOrderExpires(items: seq<QuiesItem>, last: nat, qsc: nat, i: nat)
    requires InOrder(items, last) && i == Expired(items, qsc)
    ensures i <= |items| && forall k :: 0 <= k < i ==> items[k].tscFree <= qsc
    ensures forall k :: 0 <= k < |items| - i ==> items[i..][k].tscFree > qsc
  {
    ExpiredExactly(items, qsc);
  }

  function Mhs(items: seq<QuiesItem>): seq<nat> {
    seq(|items|, i requires 0 <= i < |items| => items[i].mh)
  }

  function Szs(items: seq<QuiesItem>): seq<nat> {
    seq(|items|, i requires 0 <= i < |items| => items[i].sz)
  }

  function Stamped(m: seq<nat>, sz: seq<nat>, stamps: seq<nat>): (r: seq<QuiesItem>)
    requires |m| == |sz| && |m| <= |stamps|
    ensures |r| == |m|
  {
    seq(|m|, i requires 0 <= i < |m| => QuiesItem(m[i], sz[i], stamps[i]))
  }

  /** `q` is the entry time of a core inside. */
  ghost predicate SomeEntry(q: nat, table: seq<seq<Parsec>>) {
    exists n, c :: 0 <= n < |table| && 0 <= c < |table[n]| && InLib(table[n][c]) && q == table[n][c].timeIn
  }

  /** `q` is the smallest of `time` and the entry times of cores inside. */
  ghost predicate IsQuiescent(q: nat, time: nat, table: seq<seq<Parsec>>) {
    && q <= time
    && (forall n, c :: 0 <= n < |table| && 0 <= c < |table[n]| && InLib(table[n][c]) ==> q <= table[n][c].timeIn)
    && (q == time || SomeEntry(q, table))
  }

  /** Ring slots from index `i` up to, not including, index `j`. */
  function Slots(r: seq<QuiesItem>, i: nat, j: nat): (s: seq<QuiesItem>)
    requires |r| == MAX_QUI_RING_LEN && i < |r| && j < |r|
    ensures |s| == if i <= j then j - i else MAX_QUI_RING_LEN - i + j
  {
    if i <= j then r[i..j] else r[i..] + r[..j]
  }

  function Succ(j: nat): (r: nat)
    requires j < MAX_QUI_RING_LEN
    ensures r == if j + 1 == MAX_QUI_RING_LEN then 0 else j + 1
  {
    (j + 1) % MAX_QUI_RING_LEN
  }

  lemma SlotsPush(r: seq<QuiesItem>, h: nat, j: nat, x: QuiesItem)
    requires |r| == MAX_QUI_RING_LEN && h < |r| && j < |r| && Succ(j) != h
    ensures Slots(r[j := x], h, Succ(j)) == Slots(r, h, j) + [x]
  {
    var r' := r[j := x];
    if j + 1 == |r| {
      assert r'[h..] + r'[..0] == r[h..j] + [x];
    } else if h <= j {
      assert r'[h..j + 1] == r[h..j] + [x];
    } else {
      assert r'[h..] + r'[..j + 1] == r[h..] + r[..j] + [x];
    }
  }

  lemma SlotsPop(r: seq<QuiesItem>, h: nat, t: nat)
    requires |r| == MAX_QUI_RING_LEN && h < |r| && t < |r| && h != t
    ensures Slots(r, h, t) == [r[h]] + Slots(r, Succ(h), t)
  {
    if h + 1 == |r| {
      assert Succ(h) == 0 && r[h..] == [r[h]];
    } else {
      assert Succ(h) == h + 1;
      if h < t {
        assert r[h..t] == [r[h]] + r[h + 1..t];
      } else {
        assert r[h..] == [r[h]] + r[h + 1..];
      }
    }
  }

  /** The slot `i` places after slot `t`. */
  function Slot(t: nat, i: nat): nat {
    if t + i < MAX_QUI_RING_LEN then t + i else t + i - MAX_QUI_RING_LEN
  }

  lemma StampedNone(m: seq<nat>, sz: seq<nat>, stamps: seq<nat>)
    requires |m| == 0 && |sz| == 0
    ensures Stamped(m, sz, stamps) == []
  {
  }

  lemma StampedSnoc(m: seq<nat>, sz: seq<nat>, stamps: seq<nat>, i: nat)
    requires i < |m| && i < |sz| && i < |stamps|
    ensures Stamped(m[..i + 1], sz[..i + 1], stamps) == Stamped(m[..i], sz[..i], stamps) +
                [QuiesItem(m[i], sz[i], stamps[i])]
  {
  }

  lemma MhsAppend(a: seq<QuiesItem>, b: seq<QuiesItem>)
    ensures Mhs(a + b) == Mhs(a) + Mhs(b)
  {
  }

  lemma SzsAppend(a: seq<QuiesItem>, b: seq<QuiesItem>)
    ensures Szs(a + b) == Szs(a) + Szs(b)
  {
  }

  class Reclaimer {
    // Ring shared with the other nodes.
    var head: nat
    var tail: nat
    const ring: array<QuiesItem>
    // Batching cache.
    const m: array<nat>
    const sz: array<nat>
    var cnt: nat
    // Headers passed to bi_slab_free so far.
    var returned: seq<nat>
    // The latest stamp given.
    ghost var last: nat

    ghost predicate Shape()
      reads `head, `tail, `cnt
    {
      && ring.Length == MAX_QUI_RING_LEN && head < MAX_QUI_RING_LEN && tail < MAX_QUI_RING_LEN
      && m.Length == LOCAL_CACHE_QUEUE_SZ && sz.Length == LOCAL_CACHE_QUEUE_SZ && cnt <= LOCAL_CACHE_QUEUE_SZ
      && m != sz
    }

    /** The indices are in range, and the entries' stamps in order. */
    ghost predicate Valid()
      reads `head, `tail, `cnt, `last, ring
    {
      Shape() && InOrder(Queue(), last)
    }

    /** Ring entries from head to tail. */
    ghost function Queue(): seq<QuiesItem>
      requires Shape()
      reads `head, `tail, `cnt, ring
    {
      Slots(ring[..], head, tail)
    }

    /** Every object ever freed, in order: returned, in the ring, in the cache. */
    ghost function Flow(): seq<nat>
      requires Shape()
      reads this, ring, m
    {
      returned + Mhs(Queue()) + m[..cnt]
    }

    /** The sizes that go with the headers still to be returned. */
    ghost function Sizes(): seq<nat>
      requires Shape()
      reads this, ring, sz
    {
      Szs(Queue()) + sz[..cnt]
    }

    constructor ()
      ensures Valid() && Queue() == [] && cnt == 0 && returned == []
      ensures fresh(ring) && fresh(m) && fresh(sz)
    {
      head, tail, cnt := 0, 0, 0;
      ring := new QuiesItem[MAX_QUI_RING_LEN](_ => QuiesItem(0, 0, 0));
      m := new nat[LOCAL_CACHE_QUEUE_SZ];
      sz := new nat[LOCAL_CACHE_QUEUE_SZ];
      returned, last := [], 0;
      new;
      assert m != sz;
    }

    method RingLen() returns (n: nat)
      requires Valid()
      ensures n == |Queue()| && n < MAX_QUI_RING_LEN
    {
      n := (tail + MAX_QUI_RING_LEN - head) % MAX_QUI_RING_LEN;
      assert tail >= head ==> tail + MAX_QUI_RING_LEN - head == MAX_QUI_RING_LEN + (tail - head);
    }

    /** Stamps and appends a batch; `stamps` are the clock readings.  A ring
        without room is a failed assertion, reported before the tail moves. */
    method EnqueueBatch(batch: nat, stamps: seq<nat>) returns (ok: bool)
      requires Valid() && batch <= LOCAL_CACHE_QUEUE_SZ && batch <= |stamps| && Rising(stamps, last)
      modifies `tail, `last, ring
      ensures Valid() && last == if ok && batch > 0 then stamps[batch - 1] else old(last)
      ensures ok <==> |old(Queue())| + batch < MAX_QUI_RING_LEN
      ensures Queue() == if ok then old(Queue()) + Stamped(m[..batch], sz[..batch], stamps) else old(Queue())
    {
      hide Slots, Stamped, InOrder, Rising;
      StampedNone(m[..0], sz[..0], stamps);
      var j := tail;
      var i := 0;
      ghost var q0 := Queue();
      while i < batch
        invariant 0 <= i <= batch && j < MAX_QUI_RING_LEN && tail == old(tail) && last == old(last)
        invariant |q0| + i < MAX_QUI_RING_LEN && j == Slot(tail, i)
        invariant Slots(ring[..], head, j) == q0 + Stamped(m[..i], sz[..i], stamps)
      {
        if head == Succ(j) {
          Truncate(ring[..], head, tail, j, q0, i);
          return false;
        }
        ghost var r := ring[..];
        var x := QuiesItem(m[i], sz[i], stamps[i]);
        ring[j] := x;
        assert ring[..] == r[j := x];
        SlotsPush(r, head, j, x);
        StampedSnoc(m[..], sz[..], stamps, i);
        j := Succ(j);
        i := i + 1;
      }
      tail := j;
      InOrderAppend(q0, last, m[..batch], sz[..batch], stamps);
      if batch > 0 {
        last := stamps[batch - 1];
      }
      return true;
    }

    /** The old queue is the front of what has been written so far. */
    lemma Truncate(r: seq<QuiesItem>, h: nat, t: nat, j: nat, q: seq<QuiesItem>, i: nat)
      requires |r| == MAX_QUI_RING_LEN && h < |r| && t < |r| && j == Slot(t, i)
      requires |Slots(r, h, t)| == |q| && |q| + i < MAX_QUI_RING_LEN && q <= Slots(r, h, j)
      ensures Slots(r, h, t) == q
    {
    }

    /** qsc_local_cache_flush: the whole cache goes to the ring. */
    method CacheFlush(stamps: seq<nat>) returns (r: nat, ok: bool)
      requires Valid() && |stamps| >= cnt && Rising(stamps, last)
      modifies `tail, `cnt, `last, ring
      ensures Valid() && cnt == 0 && r == old(cnt)
      ensures ok <==> |old(Queue())| + r < MAX_QUI_RING_LEN
      ensures ok ==> Queue() == old(Queue()) + Stamped(m[..r], sz[..r], stamps)
      ensures ok ==> Flow() == old(Flow()) && Sizes() == old(Sizes())
      ensures last == if ok && r > 0 then stamps[r - 1] else old(last)
    {
      r := cnt;
      ok := EnqueueBatch(cnt, stamps);
      cnt := 0;
      if ok {
        MhsAppend(old(Queue()), Stamped(m[..r], sz[..r], stamps));
        assert Mhs(Stamped(m[..r], sz[..r], stamps)) == m[..r];
        SzsAppend(old(Queue()), Stamped(m[..r], sz[..r], stamps));
        assert Szs(Stamped(m[..r], sz[..r], stamps)) == sz[..r];
      }
    }

    /** bi_smr_free: the object joins the cache; a full cache is flushed. */
    method SmrFree(mh: nat, size: nat, stamps: seq<nat>) returns (ok: bool)
      requires Valid() && cnt < LOCAL_CACHE_QUEUE_SZ && |stamps| > cnt && Rising(stamps, last)
      modifies `tail, `cnt, `last, ring, m, sz
      ensures Valid() && cnt < LOCAL_CACHE_QUEUE_SZ
      ensures ok ==> Flow() == old(Flow()) + [mh] && Sizes() == old(Sizes()) + [size]
      ensures !ok ==> |old(Queue())| + LOCAL_CACHE_QUEUE_SZ >= MAX_QUI_RING_LEN
      ensures old(cnt) + 1 < LOCAL_CACHE_QUEUE_SZ ==>
                ok && Queue() == old(Queue()) && last == old(last) && cnt == old(cnt) + 1
      ensures old(cnt) + 1 < LOCAL_CACHE_QUEUE_SZ ==>
                m[..cnt] == old(m[..cnt]) + [mh] && sz[..cnt] == old(sz[..cnt]) + [size]
      ensures old(cnt) + 1 == LOCAL_CACHE_QUEUE_SZ ==>
                cnt == 0 && (ok <==> |old(Queue())| + LOCAL_CACHE_QUEUE_SZ < MAX_QUI_RING_LEN)
      ensures old(cnt) + 1 == LOCAL_CACHE_QUEUE_SZ && ok ==>
                last == stamps[old(cnt)] &&
                Queue() == old(Queue()) + Stamped(old(m[..cnt]) + [mh], old(sz[..cnt]) + [size], stamps)
    {
      m[cnt] := mh;
      sz[cnt] := size;
      cnt := cnt + 1;
      ok := true;
      assert m[..cnt] == old(m[..cnt]) + [mh];
      assert Flow() == old(Flow()) + [mh];
      assert sz[..cnt] == old(sz[..cnt]) + [size];
      assert Sizes() == old(Sizes()) + [size];
      if cnt == LOCAL_CACHE_QUEUE_SZ {
        ghost var f := Flow();
        var r;
        r, ok := CacheFlush(stamps);
      }
    }

    /** bi_quiesce_smr: the smallest of `time` and the entry times of the cores
        found inside a read section, node by node starting with our own. */
    method QuiesceSmr(time: nat, table: seq<seq<Parsec>>, curr: nat) returns (q: nat)
      requires curr < |table|
      ensures IsQuiescent(q, time, table)
    {
      q := time;
      var i := 0;
      while i < |table|
        invariant 0 <= i <= |table| && q <= time
        invariant forall n, c ::
                    0 <= n < |table| && Visited(n, curr, |table|, i) && 0 <= c < |table[n]| && InLib(table[n][c]) ==>
                      q <= table[n][c].timeIn
        invariant q == time || SomeEntry(q, table)
      {
        var cpu := (curr + i) % |table|;
        var j := 0;
        while j < |table[cpu]|
          invariant 0 <= j <= |table[cpu]| && q <= time
          invariant forall n, c ::
                      0 <= n < |table| && Visited(n, curr, |table|, i) && 0 <= c < |table[n]| && InLib(table[n][c]) ==>
                        q <= table[n][c].timeIn
          invariant forall c :: 0 <= c < j && InLib(table[cpu][c]) ==> q <= table[cpu][c].timeIn
          invariant q == time || SomeEntry(q, table)
        {
          var t := table[cpu][j];
          if InLib(t) {
            if q > t.timeIn {
              q := t.timeIn;
            }
          }
          j := j + 1;
        }
        VisitedNext(curr, |table|, i);
        i := i + 1;
      }
      forall n | 0 <= n < |table| ensures Visited(n, curr, |table|, |table|) {
        AllVisited(n, curr, |table|);
      }
    }

    /** bi_smr_reclaim: drain the ring from its head up to the first entry
        stamped after the quiescent time. */
    method SmrReclaim(time: nat, table: seq<seq<Parsec>>, curr: nat) returns (i: nat, ghost qsc: nat)
      requires Valid() && curr < |table| && time < WORD
      modifies `head, `returned
      ensures Valid() && Flow() == old(Flow())
      ensures old(Queue()) == [] ==> i == 0
      ensures old(Queue()) != [] ==> exists min :: IsQuiescent(min, time, table) && qsc == QuiesceCache(min)
      ensures forall k :: 0 <= k < i <= |old(Queue())| ==> old(Queue())[k].tscFree <= qsc
      ensures old(Queue()) != [] ==> forall k :: 0 <= k < |Queue()| ==> Queue()[k].tscFree > qsc
      ensures i <= |old(Queue())| && Queue() == old(Queue())[i..] && returned == old(returned) + Mhs(old(Queue())[..i])
    {
      hide Slots, IsQuiescent, Expired, QuiesceCache, Mhs, InOrder;
      i, qsc := 0, 0;
      ghost var q0 := Queue();
      MhsSplit(q0, 0);
      if head == tail {
        EmptySlots(ring[..], head);
        return;
      }
      var min := QuiesceSmr(time, table, curr);
      var q := QuiesceCache(min);
      qsc := q;
      SlotsPop(ring[..], head, tail);
      while true
        invariant Shape() && i <= |q0| && Queue() == q0[i..]
        invariant Expired(q0, q) == i + Expired(q0[i..], q)
        invariant returned == old(returned) + Mhs(q0[..i])
        decreases |q0| - i
      {
        if head == tail {
          EmptySlots(ring[..], head);
          ExpiredEmpty(q);
          break;
        }
        SlotsPop(ring[..], head, tail);
        HeadStep(q0, i, ring[head], Slots(ring[..], Succ(head), tail));
        ExpiredStep(q0, i, q);
        var a := ring[head];
        if a.tscFree > q {
          break;
        }
        MhsSnoc(q0, i);
        head := Succ(head);
        returned := returned + [a.mh];
        i := i + 1;
      }
      MhsSplit(q0, i);
      InOrderRest(q0, last, i);
      InOrderExpires(q0, last, q, i);
    }
  }

  lemma ExpiredEmpty(q: nat)
    ensures Expired([], q) == 0
  {
  }

  lemma EmptySlots(r: seq<QuiesItem>, h: nat)
    requires |r| == MAX_QUI_RING_LEN && h < |r|
    ensures Slots(r, h, h) == []
  {
  }

  lemma ExpiredStep(items: seq<QuiesItem>, i: nat, q: nat)
    requires i < |items|
    ensures Expired(items[i..], q) == if items[i].tscFree > q then 0 else 1 + Expired(items[i + 1..], q)
  {
  }

  lemma MhsSnoc(items: seq<QuiesItem>, i: nat)
    requires i < |items|
    ensures Mhs(items[..i + 1]) == Mhs(items[..i]) + [items[i].mh]
  {
  }

  lemma MhsSplit(items: seq<QuiesItem>, i: nat)
    requires i <= |items|
    ensures Mhs(items) == Mhs(items[..i]) + Mhs(items[i..])
  {
  }

  lemma HeadStep(items: seq<QuiesItem>, i: nat, x: QuiesItem, rest: seq<QuiesItem>)
    requires i <= |items| && items[i..] == [x] + rest
    ensures i < |items| && items[i] == x && items[i + 1..] == rest
  {
  }

  /** Node `n` is among the first `i` nodes counted round from `curr`. */
  predicate Visited(n: nat, curr: nat, total: nat, i: nat) {
    (if n >= curr then n - curr else n + total - curr) < i
  }

  lemma VisitedNext(curr: nat, total: nat, i: nat)
    requires curr < total && i < total
    ensures forall n ::
              0 <= n < total && Visited(n, curr, total, i + 1) ==> Visited(n, curr, total, i) || n == (curr + i) % total
  {
    assert (curr + i) % total == if curr + i < total then curr + i else curr + i - total by {
      if curr + i >= total {
        assert curr + i == total + (curr + i - total);
      }
    }
  }

  lemma AllVisited(n: nat, curr: nat, total: nat)
    requires n < total && curr < total
    ensures Visited(n, curr, total, total)
  {
  }
}
