/** Two servers, each with one client that has at most one request outstanding,
    keep their stores in step by two-phase commit over two message channels. */
module TwoPhase {
  import opened Assoc
  import opened Common
  import opened McServer
  import opened MsgQueue

  /** The direction from one server to the other: two payload buffers used in
      turn, the number of messages sent so far, and the ring of buffer slots not
      yet taken by the receiver. */
  datatype Chan = Chan(bufs: seq<Msg>, idx: nat, queue: seq<nat>)

  datatype Client = Ready | Asked(req: Input) | Served(req: Input) | Replied(reply: Reply)

  datatype Stage = Prepared | Agreed | Committing | Committed

  /** How far a server's own SET has come. */
  datatype Txn = NoTxn | Txn(stage: Stage, key: Key, val: Value)

  /** `hand[i]` is the payload slot server `i` is working on; `txn` records the
      running SETs. */
  datatype World = World(
    sv: seq<ServerState>, chan: seq<Chan>, hand: seq<Option<nat>>, client: seq<Client>, txn: seq<Txn>, halted: bool)

  datatype Step = Ask(i: nat, req: Input) | ServeClient(i: nat) | Take(i: nat) | ServePeer(i: nat) | Receive(i: nat)

  /** rpc_addr picks the buffer, rpc_send queues it; a full ring fails. */
  function Send(c: Chan, m: Msg): Option<Chan>
    requires |c.bufs| == 2
  {
    if |c.queue| == MSG_NUM - 1 then None
    else Some(Chan(c.bufs[c.idx % 2 := m], c.idx + 1, c.queue + [c.idx % 2]))
  }

  ghost predicate Shape(w: World) {
    && |w.sv| == 2 && |w.chan| == 2 && |w.hand| == 2 && |w.client| == 2 && |w.txn| == 2
    && (forall i :: 0 <= i < 2 ==> |w.chan[i].bufs| == 2 && |w.sv[i].log| == LOG_SLOTS)
    && (forall i :: 0 <= i < 2 ==> w.hand[i].Some? ==> w.hand[i].value < 2)
  }

  /** Server `i` finished a message: state, message to the peer, reply. */
  function Apply(w: World, i: nat, o: Outcome): World
    requires Shape(w) && i < 2
  {
    match o
    case Halted => w.(halted := true)
    case Done(sv, toPeer, toClient) =>
      var w1 := w.(sv := w.sv[i := sv],
                   client := if toClient.Some? then w.client[i := Replied(toClient.value)] else w.client);
      if toPeer.None? then w1
      else
        match Send(w.chan[i], toPeer.value)
        case None => w.(halted := true)
        case Some(c) => w1.(chan := w.chan[i := c])
  }

  /** The record of running SETs after server `i` handled `m`. */
  function Progress(txn: seq<Txn>, i: nat, m: Input): seq<Txn>
    requires |txn| == 2 && i < 2
  {
    match m
    case SetReq(k, v) => txn[i := Txn(Prepared, k, v)]
    case FromPeer(Prepare(k, v)) => txn[1 - i := Txn(Agreed, k, v)]
    case FromPeer(PrepareOk(k, v)) => txn[i := Txn(Committing, k, v)]
    case FromPeer(Commit(k, v)) => txn[1 - i := Txn(Committed, k, v)]
    case FromPeer(CommitOk) => txn[i := NoTxn]
    case _ => txn
  }

  function Serve(w: World, i: nat, m: Input): World
    requires Shape(w) && i < 2
  {
    var w' := Apply(w, i, Handle(w.sv[i], i, m));
    if w'.halted then w' else w'.(txn := Progress(w.txn, i, m))
  }

  ghost predicate Next(w: World, st: Step, w': World)
    requires Shape(w)
  {
    && !w.halted && st.i < 2
    && match st
       case Ask(i, req) =>
         && w.client[i] == Ready && !req.FromPeer?
         && w' == w.(client := w.client[i := Asked(req)])
       case ServeClient(i) =>
         && w.client[i].Asked? && w.hand[i] == None
         && w' == Serve(w.(client := w.client[i := Served(w.client[i].req)]), i, w.client[i].req)
       case Take(i) =>
         && w.hand[i] == None && w.chan[1 - i].queue != [] && w.chan[1 - i].queue[0] < 2
         && w' == w.(hand := w.hand[i := Some(w.chan[1 - i].queue[0])],
                     chan := w.chan[1 - i := w.chan[1 - i].(queue := w.chan[1 - i].queue[1..])])
       case ServePeer(i) =>
         && w.hand[i].Some?
         && w' == Serve(w.(hand := w.hand[i := None]), i, FromPeer(w.chan[1 - i].bufs[w.hand[i].value]))
       case Receive(i) =>
         && w.client[i].Replied?
         && w' == w.(client := w.client[i := Ready])
  }

  ghost predicate Init(w: World) {
    && Shape(w) && !w.halted
    && forall i :: 0 <= i < 2 ==>
         && w.sv[i] == ServerState([None, None], map[], 0) && w.chan[i].idx == 0 && w.chan[i].queue == []
         && w.hand[i] == None && w.client[i] == Ready && w.txn[i] == NoTxn
  }

  // ---- invariant ---------------------------------------------------------------

  /** Slots sent from `i` that the peer has not finished with, oldest first. */
  function Pending(w: World, i: nat): seq<nat>
    requires Shape(w) && i < 2
  {
    (if w.hand[1 - i].Some? then [w.hand[1 - i].value] else []) + w.chan[i].queue
  }

  /** The message of server `i`'s own SET on its way to the peer. */
  function OwnMsg(t: Txn): Option<Msg> {
    if t.Txn? && t.stage.Prepared? then Some(Prepare(t.key, t.val))
    else if t.Txn? && t.stage.Committing? then Some(Commit(t.key, t.val))
    else None
  }

  /** The answer on its way back to the server whose SET is `t`. */
  function AnswerMsg(t: Txn): Option<Msg> {
    if t.Txn? && t.stage.Agreed? then Some(PrepareOk(t.key, t.val))
    else if t.Txn? && t.stage.Committed? then Some(CommitOk)
    else None
  }

  /** Exactly these messages are pending, in either order; a CommitOk goes before
      a Prepare for the same key. */
  ghost predicate Carries(msgs: seq<Msg>, own: Option<Msg>, answer: Option<Msg>, ordered: bool) {
    match (own, answer)
    case (None, None) => msgs == []
    case (Some(a), None) => msgs == [a]
    case (None, Some(b)) => msgs == [b]
    case (Some(a), Some(b)) => msgs == [b, a] || (msgs == [a, b] && !ordered)
  }

  function Contents(c: Chan, p: seq<nat>): seq<Msg>
    requires |c.bufs| == 2
  {
    seq(|p|, j requires 0 <= j < |p| => c.bufs[p[j] % 2])
  }

  ghost predicate Alternating(c: Chan, p: seq<nat>) {
    |p| <= 2 && |p| <= c.idx && forall j :: 0 <= j < |p| ==> p[j] == (c.idx - |p| + j) % 2
  }

  predicate SameKey(a: Txn, b: Txn) {
    a.Txn? && b.Txn? && a.key == b.key
  }

  /** Two SETs of one key run together only while both are prepared, or when one
      is over on both servers and its client is about to be told. */
  predicate Compatible(a: Txn, b: Txn) {
    SameKey(a, b) ==>
      || (a.stage.Prepared? && b.stage.Prepared?)
      || (a.stage.Prepared? && b.stage.Committed?)
      || (a.stage.Committed? && b.stage.Prepared?)
  }

  ghost predicate ChanInv(w: World, i: nat)
    requires Shape(w) && i < 2
  {
    var p := Pending(w, i);
    && Alternating(w.chan[i], p)
    && Carries(Contents(w.chan[i], p), OwnMsg(w.txn[i]), AnswerMsg(w.txn[1 - i]), SameKey(w.txn[i], w.txn[1 - i]))
  }

  /** What server `i` has in its log for its own SET and for its peer's. */
  function OwnEntry(t: Txn): Option<Key> {
    if t.Txn? && (t.stage.Prepared? || t.stage.Agreed?) then Some(t.key) else None
  }

  function PeerEntry(t: Txn): Option<Key> {
    if t.Txn? && (t.stage.Agreed? || t.stage.Committing?) then Some(t.key) else None
  }

  ghost predicate LogInv(log: Log, own: Option<Key>, peer: Option<Key>) {
    (log == [own, peer] || log == [peer, own]) && (own == peer ==> own == None)
  }

  function Lookup(items: map<Key, Value>, k: Key): Option<Value> {
    if k in items then Some(items[k]) else None
  }

  predicate Between(t: Txn, k: Key) {
    t.Txn? && t.stage.Committing? && t.key == k
  }

  ghost predicate StoreInv(w: World)
    requires Shape(w)
  {
    && (forall k :: !Between(w.txn[0], k) && !Between(w.txn[1], k) ==>
          Lookup(w.sv[0].items, k) == Lookup(w.sv[1].items, k))
    && forall i :: 0 <= i < 2 && w.txn[i].Txn? ==>
         && (w.txn[i].stage.Committing? ==> Lookup(w.sv[i].items, w.txn[i].key) == Some(w.txn[i].val))
         && (w.txn[i].stage.Committed? ==>
               && Lookup(w.sv[0].items, w.txn[i].key) == Some(w.txn[i].val)
               && Lookup(w.sv[1].items, w.txn[i].key) == Some(w.txn[i].val))
  }

  ghost predicate ClientInv(w: World, i: nat)
    requires Shape(w) && i < 2
  {
    && (w.txn[i].Txn? ==>
          w.client[i] == Served(SetReq(w.txn[i].key, w.txn[i].val)) && w.sv[i].clientId == i + LOG_SLOTS)
    && (w.client[i].Asked? ==> !w.client[i].req.FromPeer?)
    && (w.client[i].Served? ==> w.txn[i].Txn?)
  }

  ghost predicate Inv(w: World) {
    && Shape(w)
    && (forall i :: 0 <= i < 2 ==> ChanInv(w, i) && ClientInv(w, i))
    && (forall i :: 0 <= i < 2 ==> LogInv(w.sv[i].log, OwnEntry(w.txn[i]), PeerEntry(w.txn[1 - i])))
    && Compatible(w.txn[0], w.txn[1])
    && StoreInv(w)
  }

  lemma InitInv(w: World)
    requires Init(w)
    ensures Inv(w)
  {
  }

  // ---- channels ------------------------------------------------------------------

  lemma DropHead(c: Chan, p: seq<nat>)
    requires |c.bufs| == 2 && Alternating(c, p) && p != []
    ensures Alternating(c, p[1..]) && Contents(c, p[1..]) == Contents(c, p)[1..]
  {
  }

  /** With at most one message pending, sending overwrites no pending payload
      and finds room in the ring. */
  lemma SendKeeps(c: Chan, p: seq<nat>, m: Msg)
    requires |c.bufs| == 2 && Alternating(c, p) && |p| <= 1 && |c.queue| <= |p|
    ensures Send(c, m).Some? && |Send(c, m).value.bufs| == 2
    ensures Send(c, m).value.queue == c.queue + [c.idx % 2]
    ensures Alternating(Send(c, m).value, p + [c.idx % 2])
    ensures Contents(Send(c, m).value, p + [c.idx % 2]) == Contents(c, p) + [m]
  {
    var c' := Send(c, m).value;
    var p' := p + [c.idx % 2];
    if |p| == 1 {
      assert p[0] == (c.idx - 1) % 2 && p[0] != c.idx % 2;
    }
    forall j | 0 <= j < |p'| ensures p'[j] == (c'.idx - |p'| + j) % 2 {
      if j < |p| {
        assert p'[j] == p[j];
      }
    }
    assert Contents(c', p') == Contents(c, p) + [m];
  }

  lemma CarriesSize(msgs: seq<Msg>, own: Option<Msg>, answer: Option<Msg>, ordered: bool)
    requires Carries(msgs, own, answer, ordered)
    ensures |msgs| == (if own.Some? then 1 else 0) + (if answer.Some? then 1 else 0)
  {
  }

  /** The message in hand heads what is pending from the peer. */
  lemma InHand(w: World, i: nat)
    requires Inv(w) && i < 2 && w.hand[i].Some?
    ensures Pending(w, 1 - i) != [] && Pending(w, 1 - i)[1..] == w.chan[1 - i].queue
    ensures Pending(w, 1 - i)[0] == w.hand[i].value
    ensures Contents(w.chan[1 - i], Pending(w, 1 - i)) != []
    ensures Contents(w.chan[1 - i], Pending(w, 1 - i))[0] == w.chan[1 - i].bufs[w.hand[i].value]
    ensures Contents(w.chan[1 - i], w.chan[1 - i].queue) == Contents(w.chan[1 - i], Pending(w, 1 - i))[1..]
    ensures Alternating(w.chan[1 - i], w.chan[1 - i].queue)
  {
    assert ChanInv(w, 1 - i);
    DropHead(w.chan[1 - i], Pending(w, 1 - i));
  }

  /** Channel invariants after server `i` finished the message in hand and sent
      `reply` (if any) to its peer. */
  lemma ChansAfterServe(w: World, i: nat, reply: Option<Msg>, w': World)
    requires Inv(w) && Shape(w') && i < 2 && w.hand[i].Some?
    requires w'.hand == w.hand[i := None]
    requires reply.None? ==> w'.chan == w.chan
    requires reply.Some? ==>
               Send(w.chan[i], reply.value).Some? && w'.chan == w.chan[i := Send(w.chan[i], reply.value).value]
    requires reply.Some? ==> OwnMsg(w.txn[i]).None? || AnswerMsg(w.txn[1 - i]).None?
    requires Carries(Contents(w.chan[1 - i], w.chan[1 - i].queue), OwnMsg(w'.txn[1 - i]), AnswerMsg(w'.txn[i]),
                 SameKey(w'.txn[1 - i], w'.txn[i]))
    requires Carries(Contents(w.chan[i], Pending(w, i)) + (if reply.Some? then [reply.value] else []),
                     OwnMsg(w'.txn[i]), AnswerMsg(w'.txn[1 - i]), SameKey(w'.txn[i], w'.txn[1 - i]))
    ensures ChanInv(w', i) && ChanInv(w', 1 - i)
  {
    InHand(w, i);
    assert ChanInv(w, i);
    assert Pending(w', 1 - i) == Pending(w, 1 - i)[1..];
    var p := Pending(w, i);
    if reply.Some? {
      CarriesSize(Contents(w.chan[i], p), OwnMsg(w.txn[i]), AnswerMsg(w.txn[1 - i]), SameKey(w.txn[i], w.txn[1 - i]));
      SendKeeps(w.chan[i], p, reply.value);
      assert Pending(w', i) == p + [w.chan[i].idx % 2];
    } else {
      assert Pending(w', i) == p;
      assert Contents(w.chan[i], p) + [] == Contents(w.chan[i], p);
    }
  }

  // ---- commit log ----------------------------------------------------------------

  /** A key that is in neither entry finds a free slot. */
  lemma CommitOwn(log: Log, peer: Option<Key>, k: Key)
    requires LogInv(log, None, peer)
    ensures !Commit2(log, k).NoSlot?
    ensures Commit2(log, k).Conflict? <==> peer == Some(k)
    ensures Commit2(log, k).Logged? ==> |Commit2(log, k).log| == 2 && LogInv(Commit2(log, k).log, Some(k), peer)
  {
    assert log[0] == None || log[1] == None;
  }

  lemma CommitPeer(log: Log, own: Option<Key>, k: Key)
    requires LogInv(log, own, None)
    ensures !Commit2(log, k).NoSlot?
    ensures Commit2(log, k).Conflict? <==> own == Some(k)
    ensures Commit2(log, k).Logged? ==> |Commit2(log, k).log| == 2 && LogInv(Commit2(log, k).log, own, Some(k))
  {
    assert log[0] == None || log[1] == None;
  }

  lemma UpdateOwn(log: Log, peer: Option<Key>, k: Key)
    requires LogInv(log, Some(k), peer)
    ensures FindSlot(log, k) < |log| == 2 && LogInv(log[FindSlot(log, k) := None], None, peer)
  {
  }

  lemma UpdatePeer(log: Log, own: Option<Key>, k: Key)
    requires LogInv(log, own, Some(k))
    ensures FindSlot(log, k) < |log| == 2 && LogInv(log[FindSlot(log, k) := None], own, None)
  {
  }

  // ---- one message ---------------------------------------------------------------

  /** The message server `i` has in hand. */
  function Held(w: World, i: nat): Msg
    requires Shape(w) && i < 2 && w.hand[i].Some?
  {
    w.chan[1 - i].bufs[w.hand[i].value]
  }

  function Served1(w: World, i: nat): World
    requires Shape(w) && i < 2 && w.hand[i].Some?
  {
    Serve(w.(hand := w.hand[i := None]), i, FromPeer(Held(w, i)))
  }

  /** Which running SET a message in hand belongs to. */
  lemma HeldBelongs(w: World, i: nat)
    requires Inv(w) && i < 2 && w.hand[i].Some?
    ensures Held(w, i).Prepare? ==> w.txn[1 - i] == Txn(Prepared, Held(w, i).key, Held(w, i).val)
    ensures Held(w, i).PrepareOk? ==> w.txn[i] == Txn(Agreed, Held(w, i).key, Held(w, i).val)
    ensures Held(w, i).Commit? ==> w.txn[1 - i] == Txn(Committing, Held(w, i).key, Held(w, i).val)
    ensures Held(w, i).CommitOk? ==> w.txn[i].Txn? && w.txn[i].stage.Committed?
    ensures Held(w, i).Prepare? && SameKey(w.txn[0], w.txn[1]) ==> !w.txn[i].stage.Committed?
    ensures var msgs := Contents(w.chan[1 - i], w.chan[1 - i].queue);
      if Held(w, i).Prepare? || Held(w, i).Commit? then Carries(msgs, None, AnswerMsg(w.txn[i]), false)
      else Carries(msgs, OwnMsg(w.txn[1 - i]), None, false)
  {
    InHand(w, i);
    assert ChanInv(w, 1 - i);
  }

  lemma ChanSize(w: World, i: nat)
    requires Inv(w) && i < 2
    ensures Alternating(w.chan[i], Pending(w, i)) && |w.chan[i].queue| <= |Pending(w, i)|
    ensures |Pending(w, i)| == (if OwnMsg(w.txn[i]).Some? then 1 else 0) +
                (if AnswerMsg(w.txn[1 - i]).Some? then 1 else 0)
    ensures Carries(Contents(w.chan[i], Pending(w, i)), OwnMsg(w.txn[i]), AnswerMsg(w.txn[1 - i]),
                SameKey(w.txn[i], w.txn[1 - i]))
  {
    assert ChanInv(w, i);
  }

  /** The invariant, server by server. */
  ghost predicate SideInv(w: World, i: nat)
    requires Shape(w) && i < 2
  {
    && ChanInv(w, i) && ClientInv(w, i)
    && LogInv(w.sv[i].log, OwnEntry(w.txn[i]), PeerEntry(w.txn[1 - i]))
  }

  lemma BothSides(w: World, i: nat)
    requires (Inv(w) || Shape(w)) && i < 2
    ensures Shape(w)
    ensures Inv(w) ==> SideInv(w, i) && SideInv(w, 1 - i) && StoreInv(w) && Compatible(w.txn[i], w.txn[1 - i])
    ensures SideInv(w, i) && SideInv(w, 1 - i) && StoreInv(w) && Compatible(w.txn[i], w.txn[1 - i]) ==> Inv(w)
  {
    hide ChanInv, ClientInv, LogInv, StoreInv;
    if SideInv(w, i) && SideInv(w, 1 - i) {
      forall j | 0 <= j < 2 ensures SideInv(w, j) {
        assert j == i || j == 1 - i;
      }
    }
  }

  /** The world after server `i` did its work on the message in hand. */
  function Worked(w: World, i: nat, sv: ServerState, c: Chan, client: seq<Client>, txn: seq<Txn>): World
    requires Shape(w) && i < 2
  {
    w.(sv := w.sv[i := sv], chan := w.chan[i := c], hand := w.hand[i := None], client := client, txn := txn)
  }

  lemma ServePrepareIs(w: World, i: nat, log: Log, c: Chan)
    requires Shape(w) && !w.halted && i < 2 && w.hand[i].Some? && Held(w, i).Prepare?
    requires Send(w.chan[i], PrepareOk(Held(w, i).key, Held(w, i).val)) == Some(c)
    requires Commit2(w.sv[i].log, Held(w, i).key) == Logged(log)
    ensures Served1(w, i) == Worked(w, i, w.sv[i].(log := log), c, w.client,
                w.txn[1 - i := Txn(Agreed, Held(w, i).key, Held(w, i).val)])
  {
  }

  lemma ServePrepare(w: World, i: nat)
    requires Inv(w) && !w.halted && i < 2 && w.hand[i].Some? && Held(w, i).Prepare?
    ensures Served1(w, i).halted <==> OwnEntry(w.txn[i]) == Some(Held(w, i).key)
    ensures !Served1(w, i).halted ==> Inv(Served1(w, i))
  {
    hide ChanInv, Contents, Inv, Send, Commit2, StoreInv;
    BothSides(w, i);
    HeldBelongs(w, i);
    ChanSize(w, i);
    var m := Held(w, i);
    CommitPeer(w.sv[i].log, OwnEntry(w.txn[i]), m.key);
    SendKeeps(w.chan[i], Pending(w, i), PrepareOk(m.key, m.val));
    if Commit2(w.sv[i].log, m.key).Logged? {
      ServePrepareIs(w, i, Commit2(w.sv[i].log, m.key).log, Send(w.chan[i], PrepareOk(m.key, m.val)).value);
      PreparedInv(w, i, Commit2(w.sv[i].log, m.key).log, Send(w.chan[i], PrepareOk(m.key, m.val)).value);
    }
  }

  lemma PreparedInv(w: World, i: nat, log: Log, c: Chan)
    requires Inv(w) && !w.halted && i < 2 && w.hand[i].Some? && Held(w, i).Prepare?
    requires Send(w.chan[i], PrepareOk(Held(w, i).key, Held(w, i).val)) == Some(c) && |c.bufs| == 2
    requires OwnEntry(w.txn[i]) != Some(Held(w, i).key)
    requires |log| == 2 && LogInv(log, OwnEntry(w.txn[i]), Some(Held(w, i).key))
    ensures Inv(Worked(w, i, w.sv[i].(log := log), c, w.client,
                w.txn[1 - i := Txn(Agreed, Held(w, i).key, Held(w, i).val)]))
  {
    hide ChanInv, Contents, Inv, Send, StoreInv, LogInv;
    BothSides(w, i);
    HeldBelongs(w, i);
    ChanSize(w, i);
    var m := Held(w, i);
    var w' := Worked(w, i, w.sv[i].(log := log), c, w.client, w.txn[1 - i := Txn(Agreed, m.key, m.val)]);
    assert Compatible(w'.txn[i], w'.txn[1 - i]);
    ChansAfterServe(w, i, Some(PrepareOk(m.key, m.val)), w');
    StoreSame(w, w', i);
    BothSides(w', i);
  }

  /** Stores untouched and nobody enters or leaves the last two stages. */
  lemma StoreSame(w: World, w': World, i: nat)
    requires Shape(w) && Shape(w') && i < 2 && StoreInv(w)
    requires w'.sv[0].items == w.sv[0].items && w'.sv[1].items == w.sv[1].items
    requires forall j :: 0 <= j < 2 ==>
               w'.txn[j] == w.txn[j] || w'.txn[j].NoTxn? || ((w'.txn[j].stage.Prepared? || w'.txn[j].stage.Agreed?))
    requires forall j :: 0 <= j < 2 && w.txn[j].Txn? && w.txn[j].stage.Committing? ==> w'.txn[j] == w.txn[j]
    ensures StoreInv(w')
  {
  }

  lemma ServePrepareOkIs(w: World, i: nat, c: Chan)
    requires Shape(w) && !w.halted && i < 2 && w.hand[i].Some? && Held(w, i).PrepareOk?
    requires Send(w.chan[i], Commit(Held(w, i).key, Held(w, i).val)) == Some(c)
    requires FindSlot(w.sv[i].log, Held(w, i).key) < |w.sv[i].log|
    ensures var m := Held(w, i);
      Served1(w, i) ==
      Worked(w, i, w.sv[i].(log := w.sv[i].log[FindSlot(w.sv[i].log, m.key) := None],
          items := w.sv[i].items[m.key := m.val]),
             c, w.client, w.txn[i := Txn(Committing, m.key, m.val)])
  {
  }

  lemma ServePrepareOk(w: World, i: nat)
    requires Inv(w) && !w.halted && i < 2 && w.hand[i].Some? && Held(w, i).PrepareOk?
    ensures !Served1(w, i).halted && Inv(Served1(w, i))
  {
    hide ChanInv, Contents, FindSlot, Inv, Send, StoreInv;
    BothSides(w, i);
    HeldBelongs(w, i);
    ChanSize(w, i);
    var m := Held(w, i);
    UpdateOwn(w.sv[i].log, PeerEntry(w.txn[1 - i]), m.key);
    SendKeeps(w.chan[i], Pending(w, i), Commit(m.key, m.val));
    ServePrepareOkIs(w, i, Send(w.chan[i], Commit(m.key, m.val)).value);
    AgreedInv(w, i, w.sv[i].log[FindSlot(w.sv[i].log, m.key) := None], Send(w.chan[i], Commit(m.key, m.val)).value);
  }

  lemma AgreedInv(w: World, i: nat, log: Log, c: Chan)
    requires Inv(w) && !w.halted && i < 2 && w.hand[i].Some? && Held(w, i).PrepareOk?
    requires Send(w.chan[i], Commit(Held(w, i).key, Held(w, i).val)) == Some(c) && |c.bufs| == 2
    requires |log| == 2 && LogInv(log, None, PeerEntry(w.txn[1 - i]))
    ensures var m := Held(w, i);
      Inv(Worked(w, i, w.sv[i].(log := log, items := w.sv[i].items[m.key := m.val]), c, w.client,
          w.txn[i := Txn(Committing, m.key, m.val)]))
  {
    hide ChanInv, Contents, Inv, Send, StoreInv, LogInv;
    BothSides(w, i);
    HeldBelongs(w, i);
    ChanSize(w, i);
    var m := Held(w, i);
    var w' := Worked(w, i, w.sv[i].(log := log, items := w.sv[i].items[m.key := m.val]), c, w.client,
        w.txn[i := Txn(Committing, m.key, m.val)]);
    assert Compatible(w'.txn[i], w'.txn[1 - i]);
    ChansAfterServe(w, i, Some(Commit(m.key, m.val)), w');
    StoreOwn(w, w', i, m.key, m.val);
    BothSides(w', i);
  }

  /** Server `i` stores its own value; its peer will follow. */
  lemma StoreOwn(w: World, w': World, i: nat, k: Key, v: Value)
    requires Shape(w) && Shape(w') && i < 2 && StoreInv(w)
    requires w.txn[i] == Txn(Agreed, k, v) && w'.txn == w.txn[i := Txn(Committing, k, v)]
    requires Compatible(w.txn[i], w.txn[1 - i])
    requires w'.sv[i].items == w.sv[i].items[k := v] && w'.sv[1 - i].items == w.sv[1 - i].items
    ensures StoreInv(w')
  {
    assert !SameKey(w.txn[i], w.txn[1 - i]);
    forall x | !Between(w'.txn[0], x) && !Between(w'.txn[1], x)
      ensures Lookup(w'.sv[0].items, x) == Lookup(w'.sv[1].items, x)
    {
      assert x != k && !Between(w.txn[i], x) && !Between(w.txn[1 - i], x);
    }
  }

  lemma ServeCommitIs(w: World, i: nat, c: Chan)
    requires Shape(w) && !w.halted && i < 2 && w.hand[i].Some? && Held(w, i).Commit?
    requires Send(w.chan[i], CommitOk) == Some(c)
    requires FindSlot(w.sv[i].log, Held(w, i).key) < |w.sv[i].log|
    ensures var m := Held(w, i);
      Served1(w, i) ==
      Worked(w, i, w.sv[i].(log := w.sv[i].log[FindSlot(w.sv[i].log, m.key) := None],
          items := w.sv[i].items[m.key := m.val]),
             c, w.client, w.txn[1 - i := Txn(Committed, m.key, m.val)])
  {
  }

  lemma ServeCommit(w: World, i: nat)
    requires Inv(w) && !w.halted && i < 2 && w.hand[i].Some? && Held(w, i).Commit?
    ensures !Served1(w, i).halted && Inv(Served1(w, i))
  {
    hide ChanInv, Contents, FindSlot, Inv, Send, StoreInv;
    BothSides(w, i);
    HeldBelongs(w, i);
    ChanSize(w, i);
    var m := Held(w, i);
    UpdatePeer(w.sv[i].log, OwnEntry(w.txn[i]), m.key);
    SendKeeps(w.chan[i], Pending(w, i), CommitOk);
    ServeCommitIs(w, i, Send(w.chan[i], CommitOk).value);
    CommittedInv(w, i, w.sv[i].log[FindSlot(w.sv[i].log, m.key) := None], Send(w.chan[i], CommitOk).value);
  }

  lemma CommittedInv(w: World, i: nat, log: Log, c: Chan)
    requires Inv(w) && !w.halted && i < 2 && w.hand[i].Some? && Held(w, i).Commit?
    requires Send(w.chan[i], CommitOk) == Some(c) && |c.bufs| == 2
    requires |log| == 2 && LogInv(log, OwnEntry(w.txn[i]), None)
    ensures var m := Held(w, i);
      Inv(Worked(w, i, w.sv[i].(log := log, items := w.sv[i].items[m.key := m.val]), c, w.client,
          w.txn[1 - i := Txn(Committed, m.key, m.val)]))
  {
    hide ChanInv, Contents, Inv, Send, StoreInv, LogInv;
    BothSides(w, i);
    HeldBelongs(w, i);
    ChanSize(w, i);
    var m := Held(w, i);
    var w' := Worked(w, i, w.sv[i].(log := log, items := w.sv[i].items[m.key := m.val]), c, w.client,
        w.txn[1 - i := Txn(Committed, m.key, m.val)]);
    assert Compatible(w'.txn[i], w'.txn[1 - i]);
    ChansAfterServe(w, i, Some(CommitOk), w');
    StorePeer(w, w', i, m.key, m.val);
    BothSides(w', i);
  }

  /** Server `i` stores its peer's value: both hold it now. */
  lemma StorePeer(w: World, w': World, i: nat, k: Key, v: Value)
    requires Shape(w) && Shape(w') && i < 2 && StoreInv(w)
    requires w.txn[1 - i] == Txn(Committing, k, v) && w'.txn == w.txn[1 - i := Txn(Committed, k, v)]
    requires Compatible(w.txn[i], w.txn[1 - i])
    requires w'.sv[i].items == w.sv[i].items[k := v] && w'.sv[1 - i].items == w.sv[1 - i].items
    ensures StoreInv(w')
  {
    assert Lookup(w.sv[1 - i].items, k) == Some(v);
    forall x | !Between(w'.txn[0], x) && !Between(w'.txn[1], x)
      ensures Lookup(w'.sv[0].items, x) == Lookup(w'.sv[1].items, x)
    {
      if x != k {
        assert !Between(w.txn[i], x) && !Between(w.txn[1 - i], x);
      }
    }
  }

  lemma ServeCommitOkIs(w: World, i: nat)
    requires Shape(w) && !w.halted && i < 2 && w.hand[i].Some? && Held(w, i).CommitOk?
    requires w.sv[i].clientId == i + LOG_SLOTS
    ensures Served1(w, i) == Worked(w, i, w.sv[i], w.chan[i], w.client[i := Replied(SetOk)], w.txn[i := NoTxn])
  {
  }

  /** SET_OK goes out only when both stores hold the value. */
  lemma ServeCommitOk(w: World, i: nat)
    requires Inv(w) && !w.halted && i < 2 && w.hand[i].Some? && Held(w, i).CommitOk?
    ensures !Served1(w, i).halted && Inv(Served1(w, i))
    ensures w.txn[i].Txn? && w.client[i] == Served(SetReq(w.txn[i].key, w.txn[i].val))
    ensures Served1(w, i).client[i] == Replied(SetOk)
    ensures forall j :: 0 <= j < 2 ==> Lookup(Served1(w, i).sv[j].items, w.txn[i].key) == Some(w.txn[i].val)
  {
    hide ChanInv, Inv, LogInv;
    BothSides(w, i);
    HeldBelongs(w, i);
    ServeCommitOkIs(w, i);
    DoneInv(w, i);
  }

  lemma DoneInv(w: World, i: nat)
    requires Inv(w) && !w.halted && i < 2 && w.hand[i].Some? && Held(w, i).CommitOk?
    ensures Inv(Worked(w, i, w.sv[i], w.chan[i], w.client[i := Replied(SetOk)], w.txn[i := NoTxn]))
  {
    hide ChanInv, Contents, Inv, StoreInv, LogInv;
    BothSides(w, i);
    HeldBelongs(w, i);
    ChanSize(w, i);
    var w' := Worked(w, i, w.sv[i], w.chan[i], w.client[i := Replied(SetOk)], w.txn[i := NoTxn]);
    assert Contents(w.chan[i], Pending(w, i)) + [] == Contents(w.chan[i], Pending(w, i));
    ChansAfterServe(w, i, None, w');
    StoreSame(w, w', i);
    BothSides(w', i);
  }

  // ---- client requests -------------------------------------------------------------

  function Started(w: World, i: nat): World
    requires Shape(w) && i < 2 && w.client[i].Asked?
  {
    Serve(w.(client := w.client[i := Served(w.client[i].req)]), i, w.client[i].req)
  }

  lemma StartSetIs(w: World, i: nat, k: Key, v: Value, log: Log, c: Chan)
    requires Shape(w) && !w.halted && i < 2 && w.client[i] == Asked(SetReq(k, v))
    requires Send(w.chan[i], Prepare(k, v)) == Some(c) && Commit2(w.sv[i].log, k) == Logged(log)
    ensures Started(w, i) == w.(sv := w.sv[i := w.sv[i].(log := log, clientId := i + LOG_SLOTS)],
                chan := w.chan[i := c],
                                client := w.client[i := Served(SetReq(k, v))], txn := w.txn[i := Txn(Prepared, k, v)])
  {
  }

  /** Channel invariants after server `i` sent one more message of its own. */
  lemma ChansAfterStart(w: World, i: nat, m: Msg, w': World)
    requires Inv(w) && Shape(w') && i < 2 && w.txn[i].NoTxn?
    requires w'.hand == w.hand && Send(w.chan[i], m).Some? && w'.chan == w.chan[i := Send(w.chan[i], m).value]
    requires w'.txn[1 - i] == w.txn[1 - i] && OwnMsg(w'.txn[i]) == Some(m) && AnswerMsg(w'.txn[i]) == None
    ensures ChanInv(w', i) && ChanInv(w', 1 - i)
  {
    assert ChanInv(w, i) && ChanInv(w, 1 - i);
    ChanSize(w, i);
    SendKeeps(w.chan[i], Pending(w, i), m);
    hide Contents;
    assert Pending(w', i) == Pending(w, i) + [w.chan[i].idx % 2];
    assert Pending(w', 1 - i) == Pending(w, 1 - i);
  }

  lemma StartSet(w: World, i: nat, k: Key, v: Value)
    requires Inv(w) && !w.halted && i < 2 && w.client[i] == Asked(SetReq(k, v))
    ensures Started(w, i).halted <==> PeerEntry(w.txn[1 - i]) == Some(k)
    ensures !Started(w, i).halted ==> Inv(Started(w, i))
  {
    hide ChanInv, Contents, Inv, Send, Commit2, StoreInv;
    BothSides(w, i);
    ChanSize(w, i);
    assert w.txn[i].NoTxn?;
    CommitOwn(w.sv[i].log, PeerEntry(w.txn[1 - i]), k);
    SendKeeps(w.chan[i], Pending(w, i), Prepare(k, v));
    if Commit2(w.sv[i].log, k).Logged? {
      StartSetIs(w, i, k, v, Commit2(w.sv[i].log, k).log, Send(w.chan[i], Prepare(k, v)).value);
      hide Started;
      var w' := Started(w, i);
      ChansAfterStart(w, i, Prepare(k, v), w');
      StoreSame(w, w', i);
      BothSides(w', i);
    }
  }

  /** GET is answered from the server's own store. */
  lemma StartGet(w: World, i: nat, k: Key)
    requires Inv(w) && !w.halted && i < 2 && w.client[i] == Asked(GetReq(k))
    ensures Inv(Started(w, i))
    ensures Started(w, i) == w.(client := w.client[i := Replied(if k in w.sv[i].items then GetOk(w.sv[i].items[k])
                else GetFail)])
  {
    BothSides(w, i);
    hide Inv;
    var w' := Started(w, i);
    ClientOnly(w, w', i);
  }

  /** Steps that touch neither servers, channels nor the record of SETs. */
  lemma ClientOnly(w: World, w': World, i: nat)
    requires Inv(w) && i < 2 && Shape(w') && w'.sv == w.sv && w'.chan == w.chan && w'.hand == w.hand && w'.txn == w.txn
    requires w'.client[1 - i] == w.client[1 - i] && ClientInv(w', i)
    ensures Inv(w')
  {
    BothSides(w, i);
    hide Inv, Contents, Carries, Alternating, StoreInv;
    assert Pending(w', i) == Pending(w, i) && Pending(w', 1 - i) == Pending(w, 1 - i);
    StoreSame(w, w', i);
    BothSides(w', i);
  }

  lemma TakeInv(w: World, i: nat, w': World)
    requires Inv(w) && Next(w, Take(i), w')
    ensures Inv(w')
  {
    hide Inv, Contents, Carries, StoreInv;
    BothSides(w, i);
    assert Pending(w', i) == Pending(w, i);
    assert Pending(w', 1 - i) == Pending(w, 1 - i);
    ContentsSame(w.chan[1 - i], w'.chan[1 - i], Pending(w, 1 - i));
    StoreSame(w, w', i);
    BothSides(w', i);
  }

  lemma ContentsSame(c: Chan, c': Chan, p: seq<nat>)
    requires |c.bufs| == 2 && c'.bufs == c.bufs
    ensures Contents(c', p) == Contents(c, p)
  {
  }

  // ---- the protocol ---------------------------------------------------------------

  /** Every step of an unhalted world keeps the invariant, unless it halts. */
  lemma NextInv(w: World, st: Step, w': World)
    requires Inv(w) && Next(w, st, w')
    ensures w'.halted || Inv(w')
  {
    match st
    case Ask(i, req) =>
      BothSides(w, i);
      hide Inv;
      ClientOnly(w, w', i);
    case ServeClient(i) =>
      BothSides(w, i);
      hide Inv, Serve;
      if w.client[i].req.SetReq? {
        StartSet(w, i, w.client[i].req.k, w.client[i].req.v);
      } else {
        StartGet(w, i, w.client[i].req.k);
      }
    case Take(i) =>
      TakeInv(w, i, w');
    case ServePeer(i) =>
      hide Inv, Serve;
      ServePeerInv(w, i);
    case Receive(i) =>
      BothSides(w, i);
      hide Inv;
      ClientOnly(w, w', i);
  }

  lemma ServePeerInv(w: World, i: nat)
    requires Inv(w) && !w.halted && i < 2 && w.hand[i].Some?
    ensures Served1(w, i).halted || Inv(Served1(w, i))
    ensures Served1(w, i).halted ==> Held(w, i).Prepare? && OwnEntry(w.txn[i]) == Some(Held(w, i).key)
  {
    assert Shape(w);
    hide Inv, Served1;
    match Held(w, i)
    case Prepare(_, _) => ServePrepare(w, i);
    case PrepareOk(_, _) => ServePrepareOk(w, i);
    case Commit(_, _) => ServeCommit(w, i);
    case CommitOk => ServeCommitOk(w, i);
  }

  ghost predicate RunStep(ws: seq<World>, steps: seq<Step>, i: nat)
    requires i + 1 < |ws| && |steps| + 1 == |ws|
  {
    Shape(ws[i]) && Next(ws[i], steps[i], ws[i + 1])
  }

  ghost predicate Run(ws: seq<World>, steps: seq<Step>) {
    && |steps| + 1 == |ws|
    && forall i: nat :: i + 1 < |ws| ==> RunStep(ws, steps, i)
  }

  /** The invariant holds in every reachable unhalted world. */
  lemma {:induction false} Reachable(ws: seq<World>, steps: seq<Step>, i: nat)
    requires Run(ws, steps) && Init(ws[0]) && i < |ws| && !ws[i].halted
    ensures Inv(ws[i])
    decreases i
  {
    hide Inv, Next;
    if i == 0 {
      InitInv(ws[0]);
    } else {
      assert RunStep(ws, steps, i - 1);
      Unhalted(ws[i - 1], steps[i - 1], ws[i]);
      Reachable(ws, steps, i - 1);
      NextInv(ws[i - 1], steps[i - 1], ws[i]);
    }
  }

  lemma Unhalted(w: World, st: Step, w': World)
    requires Shape(w) && Next(w, st, w')
    ensures !w.halted
  {
  }

  /** A key held in neither server's log has the same value in both stores. */
  lemma UnloggedAgree(w: World, k: Key)
    requires Inv(w) && Some(k) !in w.sv[0].log && Some(k) !in w.sv[1].log
    ensures Lookup(w.sv[0].items, k) == Lookup(w.sv[1].items, k)
  {
    BothSides(w, 0);
    BothSides(w, 1);
    hide Inv, ChanInv, ClientInv;
    forall j | 0 <= j < 2 && Between(w.txn[j], k) ensures Some(k) in w.sv[1 - j].log {
      LogHas(w.sv[1 - j].log, OwnEntry(w.txn[1 - j]), PeerEntry(w.txn[j]), k);
    }
    assert !Between(w.txn[0], k) && !Between(w.txn[1], k);
  }

  lemma LogHas(log: Log, own: Option<Key>, peer: Option<Key>, k: Key)
    requires LogInv(log, own, peer) && (own == Some(k) || peer == Some(k))
    ensures Some(k) in log
  {
  }

  /** The only failed assertion in any run is a same-key conflict: the log
      always has a slot, its entry is always found, the ring is never full. */
  lemma HaltsOnlyOnConflict(w: World, st: Step, w': World)
    requires Inv(w) && Next(w, st, w')
    ensures w'.halted <==>
      || (st.ServeClient? && w.client[st.i].req.SetReq? && PeerEntry(w.txn[1 - st.i]) == Some(w.client[st.i].req.k))
      || (st.ServePeer? && Held(w, st.i).Prepare? && OwnEntry(w.txn[st.i]) == Some(Held(w, st.i).key))
  {
    match st
    case Ask(i, req) =>
    case ServeClient(i) =>
      BothSides(w, i);
      hide Inv, Serve;
      if w.client[i].req.SetReq? {
        StartSet(w, i, w.client[i].req.k, w.client[i].req.v);
      } else {
        StartGet(w, i, w.client[i].req.k);
      }
    case Take(i) =>
    case ServePeer(i) =>
      hide Inv, Serve;
      ServePeerInv(w, i);
      if Held(w, i).Prepare? {
        ServePrepare(w, i);
      }
    case Receive(i) =>
  }

  /** At most two messages of one direction are unfinished, in different
      buffers, holding exactly what was sent. */
  lemma AtMostTwoPending(w: World, i: nat)
    requires Inv(w) && i < 2
    ensures |w.chan[i].queue| <= |Pending(w, i)| <= 2 < MSG_NUM - 1
    ensures forall a, b :: 0 <= a < b < |Pending(w, i)| ==> Pending(w, i)[a] != Pending(w, i)[b]
  {
    ChanSize(w, i);
    var p := Pending(w, i);
    forall a, b | 0 <= a < b < |p| ensures p[a] != p[b] {
      assert p[a] == (w.chan[i].idx - |p| + a) % 2 && p[b] == (w.chan[i].idx - |p| + b) % 2;
    }
  }

  /** Only the COMMIT_OK case answers SET_OK. */
  lemma OnlyCommitOkAnswers(w: World, st: Step, w': World, i: nat)
    requires Shape(w) && Next(w, st, w') && !w'.halted && i < 2
    requires w.client[i] != Replied(SetOk) && |w'.client| == 2 && w'.client[i] == Replied(SetOk)
    requires w.client[i].Asked? ==> !w.client[i].req.FromPeer?
    ensures st == ServePeer(i) && Held(w, i).CommitOk?
  {
    hide Send, Commit2, FindSlot;
  }

  /** A client is sent SET_OK only when both stores hold what it set. */
  lemma SetOkMeansBoth(w: World, st: Step, w': World, i: nat)
    requires Inv(w) && Next(w, st, w') && !w'.halted && i < 2
    requires w.client[i] != Replied(SetOk) && |w'.client| == 2 && w'.client[i] == Replied(SetOk)
    ensures w.client[i].Served? && w.client[i].req.SetReq? && |w'.sv| == 2
    ensures forall j :: 0 <= j < 2 ==> Lookup(w'.sv[j].items, w.client[i].req.k) == Some(w.client[i].req.v)
  {
    hide Inv, Serve;
    BothSides(w, i);
    OnlyCommitOkAnswers(w, st, w', i);
    ServeCommitOk(w, i);
    BothSides(w', i);
  }

  predicate Clash(w: World)
    requires Shape(w)
  {
    SameKey(w.txn[0], w.txn[1]) && w.txn[0].stage.Prepared? && w.txn[1].stage.Prepared?
  }

  /** Two SETs of one key that are both prepared never get any further: some
      server halts before either commits. */
  lemma ClashStays(w: World, st: Step, w': World)
    requires Inv(w) && Next(w, st, w') && Clash(w) && !w'.halted
    ensures Shape(w') && Clash(w') && w'.sv == w.sv
  {
    HaltsOnlyOnConflict(w, st, w');
    NextInv(w, st, w');
    BothSides(w, st.i);
    assert ClientInv(w, st.i);
    if st.ServePeer? {
      HeldBelongs(w, st.i);
    }
    hide Inv;
  }

  /** Any other pair of running SETs of one key is one after the other: the first
      is in both stores, and only its client has not been told. */
  lemma OneAfterTheOther(w: World) returns (i: nat)
    requires Inv(w) && SameKey(w.txn[0], w.txn[1]) && !Clash(w)
    ensures i < 2 && w.txn[i].stage.Committed? && w.txn[1 - i].stage.Prepared?
    ensures Lookup(w.sv[0].items, w.txn[i].key) == Some(w.txn[i].val)
    ensures Lookup(w.sv[1].items, w.txn[i].key) == Some(w.txn[i].val)
  {
    i := if w.txn[0].stage.Committed? then 0 else 1;
  }

  lemma {:induction false} ClashNeverCommits(ws: seq<World>, steps: seq<Step>, i: nat, j: nat)
    requires Run(ws, steps) && Init(ws[0]) && i <= j < |ws| && !ws[j].halted
    requires Shape(ws[i]) && Clash(ws[i])
    ensures Shape(ws[j]) && Clash(ws[j]) && ws[j].sv == ws[i].sv
    decreases j
  {
    hide Next, Inv;
    if i < j {
      assert RunStep(ws, steps, j - 1);
      Unhalted(ws[j - 1], steps[j - 1], ws[j]);
      ClashNeverCommits(ws, steps, i, j - 1);
      Reachable(ws, steps, j - 1);
      ClashStays(ws[j - 1], steps[j - 1], ws[j]);
    }
  }
}
