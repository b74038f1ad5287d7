/** Every SET that has been taken up is answered, or stopped by a conflict: each
    step of the server it waits for brings it closer, and no other step takes it
    further away. */
module Progress {
  import opened Assoc
  import opened Common
  import opened McServer
  import opened TwoPhase

  ghost predicate Waiting(w: World, i: nat) {
    Inv(w) && !w.halted && i < 2 && w.client[i].Served?
  }

  /** How many messages of a SET are still to be handled. */
  function Rank(s: Stage): nat {
    match s
    case Prepared => 4
    case Agreed => 3
    case Committing => 2
    case Committed => 1
  }

  /** The server that has to act next for the SET of server `i`. */
  function Turn(t: Txn, i: nat): nat
    requires i < 2
  {
    if t.Txn? && (t.stage.Prepared? || t.stage.Committing?) then 1 - i else i
  }

  /** Messages of a server's own SET, as opposed to answers. */
  predicate OwnKind(m: Msg) {
    m.Prepare? || m.Commit?
  }

  /** Messages not handled yet that server `j` is to get, oldest first. */
  function For(w: World, j: nat): seq<Msg>
    requires Shape(w) && j < 2
  {
    Contents(w.chan[1 - j], Pending(w, 1 - j))
  }

  /** 1 if a message of the other SET comes before that of SET `i`. */
  function Ahead(w: World, i: nat): nat
    requires Shape(w) && i < 2
  {
    var j := Turn(w.txn[i], i);
    var msgs := For(w, j);
    if msgs != [] && OwnKind(msgs[0]) == (j != i) then 0 else 1
  }

  /** A bound on the steps of the server it waits for that SET `i` still needs. */
  function Left(w: World, i: nat): nat
    requires Shape(w) && i < 2
  {
    if w.txn[i].NoTxn? then 0
    else 5 * Rank(w.txn[i].stage) + 2 * Ahead(w, i) + if w.hand[Turn(w.txn[i], i)].Some? then 1 else 2
  }

  /** A step of the server that SET `i` waits for, on messages of its peer. */
  predicate Helps(w: World, st: Step, i: nat)
    requires Shape(w) && i < 2
  {
    st == Take(Turn(w.txn[i], i)) || st == ServePeer(Turn(w.txn[i], i))
  }

  lemma WaitingKnows(w: World, i: nat)
    requires Waiting(w, i)
    ensures Shape(w) && w.txn[i].Txn?
    ensures var j := Turn(w.txn[i], i); For(w, j) != [] && |For(w, j)| == |Pending(w, 1 - j)| <= 2
    ensures var j := Turn(w.txn[i], i);
            Carries(For(w, j), OwnMsg(w.txn[1 - j]), AnswerMsg(w.txn[j]), SameKey(w.txn[1 - j], w.txn[j]))
  {
    BothSides(w, i);
    ChanSize(w, 1 - Turn(w.txn[i], i));
  }

  /** One such step is always possible. */
  lemma HelpPossible(w: World, i: nat) returns (st: Step, w': World)
    requires Waiting(w, i)
    ensures Shape(w) && Helps(w, st, i) && Next(w, st, w')
  {
    hide Inv, Contents, Carries, Serve;
    WaitingKnows(w, i);
    var j := Turn(w.txn[i], i);
    if w.hand[j].Some? {
      st, w' := ServePeer(j), Served1(w, j);
    } else {
      ChanSize(w, 1 - j);
      assert Pending(w, 1 - j) == w.chan[1 - j].queue;
      var slot := w.chan[1 - j].queue[0];
      st := Take(j);
      w' := w.(hand := w.hand[j := Some(slot)],
               chan := w.chan[1 - j := w.chan[1 - j].(queue := w.chan[1 - j].queue[1..])]);
    }
  }

  /** What handling a message of the peer does to the rest of the world. */
  lemma ServePeerDoes(w: World, j: nat)
    requires Shape(w) && j < 2 && w.hand[j].Some? && !Served1(w, j).halted
    ensures Served1(w, j).hand == w.hand[j := None]
    ensures Served1(w, j).txn == TwoPhase.Progress(w.txn, j, FromPeer(Held(w, j)))
    ensures |Served1(w, j).chan| == 2 && Served1(w, j).chan[1 - j] == w.chan[1 - j]
    ensures Served1(w, j).chan[j] == w.chan[j] || Sent(w.chan[j], Served1(w, j).chan[j])
    ensures Served1(w, j).client == if Held(w, j).CommitOk? then w.client[j := Replied(SetOk)] else w.client
  {
    hide Send, Commit2, FindSlot;
    var c := w.chan[j];
    match Held(w, j)
    case Prepare(k, v) => assert Send(c, PrepareOk(k, v)).Some?;
    case PrepareOk(k, v) => assert Send(c, McServer.Msg.Commit(k, v)).Some?;
    case Commit(k, v) => assert Send(c, CommitOk).Some?;
    case CommitOk =>
  }

  ghost predicate Sent(c: Chan, c': Chan) {
    |c.bufs| == 2 && exists m :: Send(c, m) == Some(c')
  }

  /** One more message behind those that were there. */
  lemma HeadKept(w: World, w': World, d: nat)
    requires Inv(w) && Inv(w') && d < 2 && w'.hand[1 - d] == w.hand[1 - d] && Pending(w, d) != []
    requires w'.chan[d] == w.chan[d] || Sent(w.chan[d], w'.chan[d])
    ensures For(w', 1 - d) != [] && For(w, 1 - d) != [] && For(w', 1 - d)[0] == For(w, 1 - d)[0]
  {
    ChanSize(w, d);
    ChanSize(w', d);
    hide Inv, Carries;
    if w'.chan[d] != w.chan[d] {
      hide Contents;
      var m :| Send(w.chan[d], m) == Some(w'.chan[d]);
      assert Pending(w', d) == Pending(w, d) + [w.chan[d].idx % 2];
      SendKeeps(w.chan[d], Pending(w, d), m);
    }
  }

  /** Nothing that concerns SET `i` has changed. */
  lemma LeftSame(w: World, w': World, i: nat)
    requires Shape(w) && Shape(w') && i < 2 && w'.txn[i] == w.txn[i]
    requires var j := Turn(w.txn[i], i); w'.hand[j] == w.hand[j] && For(w, j) != [] && For(w', j) != [] &&
                                         For(w', j)[0] == For(w, j)[0]
    ensures Left(w', i) == Left(w, i)
  {
    hide Contents;
  }

  lemma LeftBound(w: World, i: nat)
    requires Shape(w) && i < 2
    ensures Left(w, i) <= 24
    ensures w.txn[i].Txn? ==> 5 * Rank(w.txn[i].stage) < Left(w, i) <= 5 * Rank(w.txn[i].stage) + 4
  {
    hide Contents;
  }

  /** Taking a message brings every SET that waits for that server one step
      closer. */
  lemma TakeFalls(w: World, j: nat, w': World, i: nat)
    requires Waiting(w, i) && Inv(w') && Next(w, Take(j), w')
    ensures if j == Turn(w.txn[i], i) then Left(w', i) < Left(w, i) else Left(w', i) == Left(w, i)
  {
    hide Inv, Contents, Carries;
    WaitingKnows(w, i);
    var t := Turn(w.txn[i], i);
    assert Pending(w', 1 - t) == Pending(w, 1 - t);
    ContentsSame(w.chan[1 - t], w'.chan[1 - t], Pending(w, 1 - t));
    assert For(w', t) == For(w, t);
    if j != t {
      LeftSame(w, w', i);
    }
  }

  /** So does the handling of one, whichever SET it belongs to. */
  lemma ServeHere(w: World, w': World, i: nat)
    requires Waiting(w, i) && Inv(w') && !w'.halted && Next(w, ServePeer(Turn(w.txn[i], i)), w')
    requires w'.client[i].Served?
    ensures Left(w', i) < Left(w, i)
  {
    hide Inv, Contents, Carries, Serve, Left;
    InvShape(w');
    WaitingKnows(w, i);
    var t := Turn(w.txn[i], i);
    ServePeerDoes(w, t);
    HeldBelongs(w, t);
    assert Waiting(w', i);
    WaitingKnows(w', i);
    LeftBound(w', i);
    LeftBound(w, i);
    if w'.txn[i] == w.txn[i] {
      OtherGone(w, w', i);
    }
  }

  /** What the other server does changes nothing. */
  lemma ServeElsewhere(w: World, w': World, i: nat)
    requires Waiting(w, i) && Inv(w') && !w'.halted && Next(w, ServePeer(1 - Turn(w.txn[i], i)), w')
    requires w'.client[i].Served?
    ensures Left(w', i) == Left(w, i)
  {
    hide Inv, Contents, Carries, Serve, Left;
    InvShape(w');
    WaitingKnows(w, i);
    var t := Turn(w.txn[i], i);
    ServePeerDoes(w, 1 - t);
    HeldBelongs(w, 1 - t);
    HeadKept(w, w', 1 - t);
    LeftSame(w, w', i);
  }

  lemma ServeFalls(w: World, j: nat, w': World, i: nat)
    requires Waiting(w, i) && Inv(w') && !w'.halted && Next(w, ServePeer(j), w')
    ensures if w'.client[i].Served? then
              if j == Turn(w.txn[i], i) then Left(w', i) < Left(w, i) else Left(w', i) == Left(w, i)
            else w'.client[i] == Replied(SetOk) && j == Turn(w.txn[i], i)
  {
    hide Inv, Contents, Carries, Serve, Left;
    InvShape(w');
    WaitingKnows(w, i);
    if w'.client[i].Served? {
      if j == Turn(w.txn[i], i) {
        ServeHere(w, w', i);
      } else {
        ServeElsewhere(w, w', i);
      }
    } else {
      ServePeerDoes(w, j);
      HeldBelongs(w, j);
    }
  }

  /** The message in front was the other SET's; the own one is in front now. */
  lemma OtherGone(w: World, w': World, i: nat)
    requires Waiting(w, i) && Waiting(w', i) && w'.txn[i] == w.txn[i]
    requires var t := Turn(w.txn[i], i); w.hand[t].Some? && w'.hand[t].None? && w'.chan[1 - t] == w.chan[1 - t]
    ensures Left(w', i) < Left(w, i)
  {
    hide Inv, Contents;
    WaitingKnows(w, i);
    WaitingKnows(w', i);
    var t := Turn(w.txn[i], i);
    InHand(w, t);
    assert Pending(w', 1 - t) == w'.chan[1 - t].queue;
    var msgs := For(w, t);
    assert For(w', t) == msgs[1..];
    assert For(w', t)[0] == msgs[1];
  }

  /** What taking up a client's request does to the rest of the world. */
  lemma ServeClientDoes(w: World, j: nat)
    requires Shape(w) && j < 2 && w.client[j].Asked? && !w.client[j].req.FromPeer? && !Started(w, j).halted
    ensures Started(w, j).hand == w.hand && |Started(w, j).txn| == 2 && Started(w, j).txn[1 - j] == w.txn[1 - j]
    ensures |Started(w, j).chan| == 2 && Started(w, j).chan[1 - j] == w.chan[1 - j]
    ensures Started(w, j).chan[j] == w.chan[j] || Sent(w.chan[j], Started(w, j).chan[j])
    ensures |Started(w, j).client| == 2 && Started(w, j).client[1 - j] == w.client[1 - j]
  {
    hide Send, Commit2;
    match w.client[j].req
    case SetReq(k, v) => assert Send(w.chan[j], Prepare(k, v)).Some?;
    case GetReq(_) =>
  }

  lemma ClientStep(w: World, j: nat, w': World, i: nat)
    requires Waiting(w, i) && Inv(w') && !w'.halted && Next(w, ServeClient(j), w')
    ensures Left(w', i) == Left(w, i) && w'.client[i] == w.client[i]
  {
    hide Contents, Carries, Serve, ChanInv, LogInv, StoreInv;
    BothSides(w, j);
    assert ClientInv(w, j);
    hide Inv;
    WaitingKnows(w, i);
    ServeClientDoes(w, j);
    HeadKept(w, w', 1 - Turn(w.txn[i], i));
    LeftSame(w, w', i);
  }

  /** The way to the answer: a step of the server it waits for shortens it, no
      other step makes it longer, and it ends with SET_OK. */
  lemma Closer(w: World, st: Step, w': World, i: nat)
    requires Waiting(w, i) && Next(w, st, w') && !w'.halted
    ensures Shape(w) && Inv(w')
    ensures w'.client[i].Served? && Helps(w, st, i) ==> Left(w', i) < Left(w, i)
    ensures w'.client[i].Served? && !Helps(w, st, i) ==> Left(w', i) == Left(w, i)
    ensures !w'.client[i].Served? ==> w'.client[i] == Replied(SetOk) && Helps(w, st, i)
  {
    hide Inv, Contents, Carries, Serve;
    NextInv(w, st, w');
    WaitingKnows(w, i);
    match st
    case Take(j) => TakeFalls(w, j, w', i);
    case ServePeer(j) => ServeFalls(w, j, w', i);
    case ServeClient(j) => ClientStep(w, j, w', i);
    case Ask(_, _) => LeftSame(w, w', i);
    case Receive(_) => LeftSame(w, w', i);
  }

  /** A client and its server go on as well: the server finishes what it has in
      hand, or takes up the request, and an answer is received. */
  lemma ClientGoesOn(w: World, i: nat, req: Input) returns (st: Step, w': World)
    requires Inv(w) && !w.halted && i < 2 && !w.client[i].Served? && !req.FromPeer?
    ensures Shape(w) && Next(w, st, w')
    ensures st == match w.client[i]
                  case Ready => Ask(i, req)
                  case Asked(_) => if w.hand[i].Some? then ServePeer(i) else ServeClient(i)
                  case Served(_) => st
                  case Replied(_) => Receive(i)
  {
    hide Inv, Serve;
    InvShape(w);
    match w.client[i]
    case Ready => st, w' := Ask(i, req), w.(client := w.client[i := Asked(req)]);
    case Asked(r) =>
      if w.hand[i].Some? {
        st, w' := ServePeer(i), Served1(w, i);
      } else {
        st, w' := ServeClient(i), Started(w, i);
      }
    case Replied(_) => st, w' := Receive(i), w.(client := w.client[i := Ready]);
  }

  // ---- runs ------------------------------------------------------------------------

  /** How many steps from `a` to `b` are of the server SET `i` waits for. */
  ghost function Helping(ws: seq<World>, steps: seq<Step>, i: nat, a: nat, b: nat): nat
    requires Run(ws, steps) && a <= b < |ws| && i < 2
    decreases b
  {
    if a == b then 0
    else
      assert RunStep(ws, steps, b - 1);
      Helping(ws, steps, i, a, b - 1) + if Helps(ws[b - 1], steps[b - 1], i) then 1 else 0
  }

  /** In every run, whatever else goes on in between, a SET that is still not
      answered has had fewer than 24 steps of the servers it waited for. */
  lemma {:induction false} AnsweredInTime(ws: seq<World>, steps: seq<Step>, i: nat, a: nat, b: nat)
    requires Run(ws, steps) && Init(ws[0]) && i < 2 && a <= b < |ws| && !ws[b].halted
    requires forall k :: a <= k <= b ==> Shape(ws[k]) && ws[k].client[i].Served?
    ensures Helping(ws, steps, i, a, b) + Left(ws[b], i) <= Left(ws[a], i) <= 24
    ensures Helping(ws, steps, i, a, b) < 24
    decreases b
  {
    hide Inv, Next, Left, Init;
    Reachable(ws, steps, b);
    assert Waiting(ws[b], i);
    WaitingKnows(ws[b], i);
    LeftBound(ws[b], i);
    if a < b {
      assert RunStep(ws, steps, b - 1);
      Unhalted(ws[b - 1], steps[b - 1], ws[b]);
      AnsweredInTime(ws, steps, i, a, b - 1);
      Reachable(ws, steps, b - 1);
      Closer(ws[b - 1], steps[b - 1], ws[b], i);
    }
    LeftBound(ws[a], i);
  }

  /** From every world in which a SET waits, the servers alone can bring it to its
      answer, or to the conflict that stops them, within 24 steps. */
  lemma {:induction false} CanBeAnswered(w: World, i: nat) returns (ws: seq<World>, steps: seq<Step>)
    requires Waiting(w, i)
    ensures Run(ws, steps) && ws[0] == w && |steps| <= Left(w, i)
    ensures ws[|steps|].halted || (|ws[|steps|].client| == 2 && ws[|steps|].client[i] == Replied(SetOk))
    decreases Left(w, i)
  {
    hide Inv, Next, Left;
    var st, w' := HelpPossible(w, i);
    WaitingKnows(w, i);
    LeftBound(w, i);
    if w'.halted {
      ws, steps := [w, w'], [st];
    } else {
      Closer(w, st, w', i);
      InvShape(w');
      if w'.client[i].Served? {
        var us, ups := CanBeAnswered(w', i);
        ws, steps := [w] + us, [st] + ups;
        forall k: nat | k + 1 < |ws| ensures RunStep(ws, steps, k) {
          if k > 0 {
            assert RunStep(us, ups, k - 1);
            assert ws[k] == us[k - 1] && ws[k + 1] == us[k] && steps[k] == ups[k - 1];
          }
        }
      } else {
        ws, steps := [w, w'], [st];
      }
    }
  }

  lemma InvShape(w: World)
    requires Inv(w)
    ensures Shape(w)
  {
  }
}
