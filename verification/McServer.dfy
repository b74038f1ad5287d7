/** One memcached server of the two-server pair: the commit log, the item store
    and the message cases of its event loop. */
module McServer {
  import opened Assoc
  import opened Common

  type Log = seq<Option<Key>>

  const NUM_NODE: nat := 4
  const LOG_SLOTS: nat := NUM_NODE / 2

  /** Messages between the two servers. */
  datatype Msg = Prepare(key: Key, val: Value) | PrepareOk(key: Key, val: Value) | Commit(key: Key,
      val: Value) | CommitOk

  datatype Input = GetReq(k: Key) | SetReq(k: Key, v: Value) | FromPeer(msg: Msg)

  datatype Reply = GetOk(found: Value) | GetFail | SetOk

  datatype ServerState = ServerState(log: Log, items: map<Key, Value>, clientId: int)

  /** A failed assertion stops the server. */
  datatype Outcome = Halted | Done(sv: ServerState, toPeer: Option<Msg>, toClient: Option<Reply>)

  /** The last empty slot, or -1. */
  function EmptySlot(log: Log): (w: int)
    ensures -1 <= w < |log|
    ensures w >= 0 ==> log[w] == None && forall i :: w < i < |log| ==> log[i] != None
    ensures w < 0 ==> forall i :: 0 <= i < |log| ==> log[i] != None
  {
    if log == [] then -1
    else if log[|log| - 1] == None then |log| - 1
    else EmptySlot(log[..|log| - 1])
  }

  /** The first slot that holds `k`, or the number of slots. */
  function FindSlot(log: Log, k: Key): (i: nat)
    ensures i <= |log|
    ensures i < |log| ==> log[i] == Some(k)
    ensures forall j :: 0 <= j < i ==> log[j] != Some(k)
  {
    if log == [] || log[0] == Some(k) then 0
    else
      assert forall j :: 1 <= j < |log| ==> log[j] == log[1..][j - 1];
      1 + FindSlot(log[1..], k)
  }

  datatype CommitResult = Logged(log: Log) | Conflict | NoSlot

  function Commit2(log: Log, k: Key): CommitResult {
    if Some(k) in log then Conflict
    else if EmptySlot(log) < 0 then NoSlot
    else Logged(log[EmptySlot(log) := Some(k)])
  }

  /** What the event loop does with one message. */
  function Handle(sv: ServerState, me: int, m: Input): Outcome {
    match m
    case GetReq(k) =>
      Done(sv, None, Some(if k in sv.items then GetOk(sv.items[k]) else GetFail))
    case SetReq(k, v) =>
      (match Commit2(sv.log, k)
       case Logged(log) => Done(sv.(log := log, clientId := me + LOG_SLOTS), Some(Prepare(k, v)), None)
       case _ => Halted)
    case FromPeer(Prepare(k, v)) =>
      (match Commit2(sv.log, k)
       case Logged(log) => Done(sv.(log := log), Some(PrepareOk(k, v)), None)
       case _ => Halted)
    case FromPeer(PrepareOk(k, v)) =>
      if FindSlot(sv.log, k) < |sv.log| then
        Done(sv.(log := sv.log[FindSlot(sv.log, k) := None], items := sv.items[k := v]), Some(Commit(k, v)), None)
      else Halted
    case FromPeer(Commit(k, v)) =>
      if FindSlot(sv.log, k) < |sv.log| then
        Done(sv.(log := sv.log[FindSlot(sv.log, k) := None], items := sv.items[k := v]), Some(CommitOk), None)
      else Halted
    case FromPeer(CommitOk) =>
      if sv.clientId == me + LOG_SLOTS then Done(sv, None, Some(SetOk)) else Halted
  }

  class Server {
    const me: int
    const logKey: array<Option<Key>>
    const store: Table
    var clientId: int

    ghost predicate Valid()
      reads store, store.heads
    {
      logKey.Length == LOG_SLOTS && store.Valid()
    }

    ghost function State(): ServerState
      requires Valid()
      reads this, logKey, store, store.heads
    {
      ServerState(logKey[..], store.Contents(), clientId)
    }

    constructor (node: int, buckets: nat, hash: Key -> nat)
      requires buckets > 0
      ensures Valid() && me == node && fresh(logKey) && fresh(store) && fresh(store.heads)
      ensures State() == ServerState([None, None], map[], 0)
    {
      me, clientId := node, 0;
      logKey := new Option<Key>[LOG_SLOTS](_ => None);
      store := new Table(buckets, hash);
    }

    /** mc_commit: note the key in the log; 1 if it is there already, -1 if the
        log has no room. */
    method McCommit(key: Key) returns (r: int)
      requires Valid()
      modifies logKey
      ensures match Commit2(old(logKey[..]), key)
              case Logged(log) => r == 0 && logKey[..] == log
              case Conflict => r == 1 && logKey[..] == old(logKey[..])
              case NoSlot => r == -1 && logKey[..] == old(logKey[..])
    {
      var w := -1;
      var i := 0;
      while i < logKey.Length
        invariant 0 <= i <= logKey.Length && -1 <= w < i
        invariant w == EmptySlot(logKey[..i]) && Some(key) !in logKey[..i]
        invariant logKey[..] == old(logKey[..])
      {
        assert logKey[..i + 1][..i] == logKey[..i] && logKey[..i + 1][i] == logKey[i];
        if logKey[i] == None {
          w := i;
        } else if logKey[i] == Some(key) {
          assert Some(key) in logKey[..];
          return 1;
        }
        i := i + 1;
      }
      assert logKey[..i] == logKey[..];
      if w == -1 {
        return -1;
      }
      logKey[w] := Some(key);
      return 0;
    }

    /** mc_update: drop the key from the log and store the item; false if the
        log has no such entry. */
    method McUpdate(key: Key, data: Value) returns (ok: bool)
      requires Valid()
      modifies logKey, store, store.heads
      ensures Valid() && (ok <==> Some(key) in old(logKey[..]))
      ensures ok ==> store.Contents() == old(store.Contents())[key := data]
      ensures ok ==> logKey[..] == old(logKey[..])[FindSlot(old(logKey[..]), key) := None]
      ensures !ok ==> store.Contents() == old(store.Contents()) && logKey[..] == old(logKey[..])
    {
      var i := 0;
      while i < logKey.Length && logKey[i] != Some(key)
        invariant 0 <= i <= logKey.Length && forall j :: 0 <= j < i ==> logKey[j] != Some(key)
      {
        i := i + 1;
      }
      if i == logKey.Length {
        return false;
      }
      FirstIs(logKey[..], key, i);
      logKey[i] := None;
      store.Set(key, data);
      return true;
    }

    lemma FirstIs(log: Log, k: Key, i: nat)
      requires i < |log| && log[i] == Some(k) && forall j :: 0 <= j < i ==> log[j] != Some(k)
      ensures FindSlot(log, k) == i
    {
    }

    /** One turn of the event loop. */
    method HandleMessage(m: Input) returns (halted: bool, toPeer: Option<Msg>, toClient: Option<Reply>)
      requires Valid()
      modifies this`clientId, logKey, store, store.heads
      ensures Valid()
      ensures Handle(old(State()), me, m).Halted? <==> halted
      ensures !halted ==> Handle(old(State()), me, m) == Done(State(), toPeer, toClient)
    {
      halted, toPeer, toClient := false, None, None;
      match m
      case GetReq(k) =>
        var p := store.Find(k);
        toClient := Some(if p != 0 then GetOk(store.items[p].data) else GetFail);
      case SetReq(k, v) =>
        clientId := me + LOG_SLOTS;
        var r := McCommit(k);
        halted := r != 0;
        toPeer := Some(Prepare(k, v));
      case FromPeer(Prepare(k, v)) =>
        var r := McCommit(k);
        halted := r != 0;
        toPeer := Some(PrepareOk(k, v));
      case FromPeer(PrepareOk(k, v)) =>
        InLog(logKey[..], k);
        var ok := McUpdate(k, v);
        halted := !ok;
        toPeer := Some(Commit(k, v));
      case FromPeer(Commit(k, v)) =>
        InLog(logKey[..], k);
        var ok := McUpdate(k, v);
        halted := !ok;
        toPeer := Some(CommitOk);
      case FromPeer(CommitOk) =>
        halted := clientId != me + LOG_SLOTS;
        toClient := Some(SetOk);
    }

    lemma InLog(log: Log, k: Key)
      ensures FindSlot(log, k) < |log| <==> Some(k) in log
    {
    }
  }
}
