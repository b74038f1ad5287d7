/** The single-producer single-consumer ring between two nodes whose caches are
    not coherent.

    Each side keeps its own index and looks at the other side's through a cache
    that may lag; only an explicit reload is up to date.  The methods below are
    the single accesses of msg_enqueue and msg_dequeue: each keeps `Valid`
    whatever the other side is in the middle of, so any interleaving of the two
    sides behaves as one bounded FIFO. */
module MsgQueue {
  const MSG_NUM: nat := 8

  datatype Side = Idle | Granted | Moved

  /** Fewer than eight places apart, two indices name different slots. */
  lemma IndexApart(a: nat, b: nat)
    requires a < b < a + MSG_NUM
    ensures a % MSG_NUM != b % MSG_NUM
  {
    assert b % MSG_NUM == (a % MSG_NUM + (b - a)) % MSG_NUM;
  }

  lemma IndexNext(a: nat)
    ensures (a % MSG_NUM + 1) % MSG_NUM == (a + 1) % MSG_NUM
  {
  }

  /** The test for a full ring compares slots, not counts: it says full exactly
      if seven entries separate the tail from the head it looked at. */
  lemma FullTest(sent: nat, seen: nat)
    requires seen <= sent < seen + MSG_NUM
    ensures (sent % MSG_NUM + 1) % MSG_NUM == seen % MSG_NUM <==> sent + 1 == seen + MSG_NUM
  {
    IndexNext(sent);
    if sent + 1 < seen + MSG_NUM {
      IndexApart(seen, sent + 1);
    } else {
      assert sent + 1 == seen + MSG_NUM;
    }
  }

  class Ring<T(0)> {
    const ring: array<T>
    var head: nat
    var tail: nat
    // The producer's cached copy of head and the consumer's of tail.
    var headCopy: nat
    var tailCopy: nat
    // How far each side is in its current operation, and what it carries.
    var producer: Side
    var consumer: Side
    var entry: T

    ghost var sent: seq<T>
    ghost var taken: nat
    ghost var headAge: nat
    ghost var tailAge: nat

    ghost predicate Valid()
      reads this, ring
    {
      && ring.Length == MSG_NUM
      && taken <= |sent| < taken + MSG_NUM
      && head == taken % MSG_NUM && tail == |sent| % MSG_NUM
      && headCopy == headAge % MSG_NUM && headAge <= taken && |sent| < headAge + MSG_NUM
      && tailCopy == tailAge % MSG_NUM && taken <= tailAge <= |sent|
      && (forall i :: taken <= i < |sent| ==> ring[i % MSG_NUM] == sent[i])
      && (producer != Idle ==> |sent| + 1 < taken + MSG_NUM && |sent| + 1 < headAge + MSG_NUM)
      && (consumer != Idle ==> taken < |sent| && taken < tailAge)
      && (consumer == Moved ==> entry == sent[taken])
    }

    /** What is in the queue, oldest first. */
    ghost function Contents(): seq<T>
      requires Valid()
      reads this, ring
    {
      sent[taken..]
    }

    constructor ()
      ensures Valid() && Contents() == [] && producer == Idle && consumer == Idle && fresh(ring)
    {
      ring := new T[MSG_NUM];
      head, tail, headCopy, tailCopy := 0, 0, 0, 0;
      producer, consumer := Idle, Idle;
      sent, taken, headAge, tailAge := [], 0, 0, 0;
    }

    /** The producer's cache line may be refilled at any moment with any value
        the head had since. */
    method HeadCopyRefills(ghost n: nat, v: nat)
      requires Valid() && headAge <= n <= taken && v == n % MSG_NUM
      modifies `headCopy, `headAge
      ensures Valid() && Contents() == old(Contents())
    {
      headCopy, headAge := v, n;
    }

    method TailCopyRefills(ghost n: nat, v: nat)
      requires Valid() && tailAge <= n <= |sent| && v == n % MSG_NUM
      modifies `tailCopy, `tailAge
      ensures Valid() && Contents() == old(Contents())
    {
      tailCopy, tailAge := v, n;
    }

    /** Is there room?  "Full" is said only if it is so at the reload. */
    method EnqueueCheck() returns (ok: bool)
      requires Valid() && producer == Idle
      modifies `headCopy, `headAge, `producer
      ensures Valid() && Contents() == old(Contents())
      ensures ok <==> |Contents()| < MSG_NUM - 1
      ensures producer == if ok then Granted else Idle
    {
      FullTest(|sent|, headAge);
      FullTest(|sent|, taken);
      var delta := (tail + 1) % MSG_NUM;
      if delta == headCopy {
        headCopy, headAge := head, taken;
        if delta == headCopy {
          return false;
        }
      }
      producer := Granted;
      return true;
    }

    /** The entry goes to a slot no unread entry is in. */
    method EnqueueWrite(x: T)
      requires Valid() && producer == Granted
      modifies `producer, ring
      ensures Valid() && Contents() == old(Contents()) && producer == Moved
      ensures ring[tail] == x
    {
      forall i | taken <= i < |sent| ensures i % MSG_NUM != tail {
        IndexApart(i, |sent|);
      }
      ring[tail] := x;
      producer := Moved;
    }

    method EnqueuePublish()
      requires Valid() && producer == Moved
      modifies `tail, `producer, `sent
      ensures Valid() && producer == Idle
      ensures Contents() == old(Contents()) + [ring[old(tail)]]
    {
      IndexNext(|sent|);
      sent := sent + [ring[tail]];
      tail := (tail + 1) % MSG_NUM;
      producer := Idle;
    }

    /** Is there an entry?  "Empty" is said only if it is so at the reload. */
    method DequeueCheck() returns (ok: bool)
      requires Valid() && consumer == Idle
      modifies `tailCopy, `tailAge, `consumer
      ensures Valid() && Contents() == old(Contents())
      ensures ok <==> Contents() != []
      ensures consumer == if ok then Granted else Idle
    {
      if taken < tailAge {
        IndexApart(taken, tailAge);
      }
      if head == tailCopy {
        tailCopy, tailAge := tail, |sent|;
        if taken < |sent| {
          IndexApart(taken, |sent|);
        }
        if head == tailCopy {
          return false;
        }
      }
      consumer := Granted;
      return true;
    }

    method DequeueRead()
      requires Valid() && consumer == Granted
      modifies `consumer, `entry
      ensures Valid() && Contents() == old(Contents()) && consumer == Moved
      ensures Contents() != [] && entry == Contents()[0]
    {
      entry := ring[head];
      consumer := Moved;
    }

    method DequeueRelease()
      requires Valid() && consumer == Moved
      modifies `head, `consumer, `taken
      ensures Valid() && consumer == Idle
      ensures old(Contents()) == [entry] + Contents()
    {
      IndexNext(taken);
      head := (head + 1) % MSG_NUM;
      taken := taken + 1;
      consumer := Idle;
    }

    /** msg_enqueue */
    method Enqueue(x: T) returns (r: int)
      requires Valid() && producer == Idle
      modifies `headCopy, `headAge, `producer, `tail, `sent, ring
      ensures Valid() && producer == Idle
      ensures if |old(Contents())| < MSG_NUM - 1 then r == 0 && Contents() == old(Contents()) + [x]
              else r == -1 && Contents() == old(Contents())
    {
      var ok := EnqueueCheck();
      if !ok {
        return -1;
      }
      EnqueueWrite(x);
      EnqueuePublish();
      return 0;
    }

    /** msg_dequeue */
    method Dequeue() returns (r: int)
      requires Valid() && consumer == Idle
      modifies `tailCopy, `tailAge, `consumer, `entry, `head, `taken
      ensures Valid() && consumer == Idle
      ensures if old(Contents()) != [] then r == 0 && old(Contents()) == [entry] + Contents()
              else r == -1 && Contents() == []
    {
      var ok := DequeueCheck();
      if !ok {
        return -1;
      }
      DequeueRead();
      DequeueRelease();
      return 0;
    }
  }
}
