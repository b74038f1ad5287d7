/** One direction between the two servers: two payload buffers used in turn, and
    the message ring that carries their offsets.  It is the channel of the
    two-phase commit. */
module Rpc {
  import opened Common
  import opened McServer
  import opened MsgQueue
  import opened TwoPhase

  class Direction {
    const ring: Ring<nat>
    var bufs: seq<Msg>
    var idx: nat

    ghost predicate Valid()
      reads this, ring, ring.ring
    {
      ring.Valid() && |bufs| == 2
    }

    /** The channel this is. */
    ghost function Model(): Chan
      requires Valid()
      reads this, ring, ring.ring
    {
      Chan(bufs, idx, ring.Contents())
    }

    constructor (m: Msg)
      ensures Valid() && Model() == Chan([m, m], 0, [])
      ensures fresh(ring) && fresh(ring.ring) && ring.producer == Side.Idle && ring.consumer == Side.Idle
    {
      ring := new Ring<nat>();
      bufs, idx := [m, m], 0;
    }

    /** rpc_addr, the copy of the message, and rpc_send: what the channel of the
        protocol calls Send, also while the receiver is taking a message. */
    method RpcSend(m: Msg) returns (r: int)
      requires Valid() && ring.producer == Side.Idle
      modifies this, ring`headCopy, ring`headAge, ring`producer, ring`tail, ring`sent, ring.ring
      ensures Valid() && ring.producer == Side.Idle
      ensures r == 0 <==> Send(old(Model()), m).Some?
      ensures r == 0 ==> Some(Model()) == Send(old(Model()), m)
      ensures r != 0 ==> r == -1 && ring.Contents() == old(ring.Contents())
    {
      var slot := idx % 2;
      bufs := bufs[slot := m];
      idx := idx + 1;
      r := ring.Enqueue(slot);
    }

    /** rpc_recv_ext: the oldest slot leaves the queue; the message is read from
        its buffer afterwards. */
    method RpcRecv() returns (r: int, slot: nat)
      requires Valid() && ring.consumer == Side.Idle
      modifies ring`tailCopy, ring`tailAge, ring`consumer, ring`entry, ring`head, ring`taken
      ensures Valid() && ring.consumer == Side.Idle
      ensures r == 0 <==> old(Model()).queue != []
      ensures r == 0 ==> old(Model()) == Model().(queue := [slot] + Model().queue)
      ensures r != 0 ==> r == -1 && Model() == old(Model())
    {
      r := ring.Dequeue();
      slot := ring.entry;
    }
  }
}
