/** Many streams over one packet channel.  Two adb processes each keep a table of local
    sockets and hand out ids; packets name their stream by a pair of ids.  Every stream of
    every reachable world is a run of the one-stream protocol, whatever the other streams do. */
module Mux {
  import opened Bytes
  import opened StreamProtocol

  /** arg0 is the sender's id, arg1 the receiver's; A_OPEN has no arg1. */
  datatype Msg =
    | MOpen(arg0: nat)
    | MOkay(arg0: nat, arg1: nat)
    | MWrte(arg0: nat, arg1: nat, data: Bytes)
    | MClse(arg0: nat, arg1: nat)

  /** `peer` is the id of the remote socket this one was bound to, 0 when it never was. */
  datatype Sock = Sock(end: End, peer: nat, opener: bool)

  /** Sockets are kept under the id they were given; `end.phase` says whether they are
      still listed under it. */
  datatype Node = Node(nextId: nat, socks: map<nat, Sock>)

  datatype World = World(a: Node, b: Node, ab: seq<Msg>, ba: seq<Msg>)

  const MAX_ID: nat := 0xffff_ffff

  datatype Action =
    | Connect                          // create_local_socket, connect_to_remote
    | Local(id: nat, ev: Event)        // a callback on socket `id`
    | Deliver(w: Writes, found: bool)  // handle_packet; `found`: the service exists

  const Waiter := Fresh.(phase := Waiting, readOn := false)

  /** The packets a socket sends, with ids. */
  function Address(ps: seq<Packet>, id: nat, peer: nat): (ms: seq<Msg>)
    ensures |ms| == |ps|
  {
    if ps == [] then [] else
      [match ps[0] case Okay => MOkay(id, peer) case Wrte(d) => MWrte(id, peer, d) case Clse => MClse(id, peer)]
      + Address(ps[1..], id, peer)
  }

  /** find_local_socket: listed under `id`, and if `peer` is not 0, bound to it. */
  predicate Finds(n: Node, id: nat, peer: nat)
  {
    && id in n.socks && Live(n.socks[id].end)
    && (peer == 0 || (n.socks[id].end.phase == Open && n.socks[id].peer == peer))
  }

  function Put(n: Node, id: nat, s: Sock): (n': Node)
  {
    n.(socks := n.socks[id := s])
  }

  /** The outcome of a socket operation: the socket's new state and what it sends. */
  function Apply(n: Node, id: nat, peer: nat, res: (End, seq<Packet>)): (r: (Node, seq<Msg>))
    requires id in n.socks
  {
    (Put(n, id, Sock(res.0, peer, n.socks[id].opener)), Address(res.1, id, peer))
  }

  /** handle_packet. */
  function HandleMsg(n: Node, m: Msg, w: Writes, found: bool): (r: (Node, seq<Msg>))
  {
    match m
    case MOpen(x) =>
      if x == 0 then (n, [])
      else if !found then (n, [MClse(0, x)])
      else if n.nextId >= MAX_ID then (n, [])
      else (Put(n.(nextId := n.nextId + 1), n.nextId, Sock(Fresh, x, false)), [MOkay(n.nextId, x)])
    case MOkay(x, y) =>
      if x == 0 || y == 0 || !Finds(n, y, 0) then (n, [])
      else
        var s := n.socks[y];
        if s.end.phase == Waiting then Apply(n, y, x, Handle(s.end, Okay, w))
        else if s.peer == x then Apply(n, y, x, Handle(s.end, Okay, w))
        else (n, [])
    case MWrte(x, y, data) =>
      if x == 0 || y == 0 || !Finds(n, y, x) then (n, [])
      else Apply(n, y, x, Handle(n.socks[y].end, Wrte(data), w))
    case MClse(x, y) =>
      if y == 0 || !Finds(n, y, x) then (n, [])
      else Apply(n, y, n.socks[y].peer, Close(n.socks[y].end, true, ByPeer))
  }

  predicate LocalEnabled(s: Sock, ev: Event)
  {
    !ev.Receive? && Enabled(Duplex(s.end, s.end, [], []), ev)
  }

  /** One step of process `a`; what is not enabled does nothing. */
  function StepA(v: World, act: Action): (v': World)
  {
    match act
    case Connect =>
      if v.a.nextId >= MAX_ID then v
      else v.(a := Put(v.a.(nextId := v.a.nextId + 1), v.a.nextId, Sock(Waiter, 0, true)),
              ab := v.ab + [MOpen(v.a.nextId)])
    case Local(id, ev) =>
      if id !in v.a.socks || !LocalEnabled(v.a.socks[id], ev) then v
      else
        var s := v.a.socks[id];
        var (n, ms) := Apply(v.a, id, s.peer, StreamProtocol.Act(Duplex(s.end, s.end, [], []), ev));
        v.(a := n, ab := v.ab + ms)
    case Deliver(w, found) =>
      if v.ba == [] then v
      else
        var (n, ms) := HandleMsg(v.a, v.ba[0], w, found);
        v.(a := n, ab := v.ab + ms, ba := v.ba[1..])
  }

  function Flip(v: World): (v': World)
  {
    World(v.b, v.a, v.ba, v.ab)
  }

  datatype WorldMove = AtA(act: Action) | AtB(act: Action)

  function WorldStep(v: World, m: WorldMove): (v': World)
  {
    match m
    case AtA(act) => StepA(v, act)
    case AtB(act) => Flip(StepA(Flip(v), act))
  }

  function WorldRun(moves: seq<WorldMove>): (v: World)
    decreases |moves|
  {
    if moves == [] then World(Node(1, map[]), Node(1, map[]), [], [])
    else WorldStep(WorldRun(moves[..|moves| - 1]), moves[|moves| - 1])
  }

  // --- one stream seen by itself ---

  /** The packets of a channel that travel from socket x to socket y. */
  function Pick(ms: seq<Msg>, x: nat, y: nat): (ps: seq<Packet>)
  {
    if ms == [] then []
    else
      (match ms[0]
       case MOkay(p, q) => if p == x && q == y then [Okay] else []
       case MWrte(p, q, d) => if p == x && q == y then [Wrte(d)] else []
       case MClse(p, q) => if p == x && q == y then [Clse] else []
       case MOpen(_) => [])
      + Pick(ms[1..], x, y)
  }

  /** Socket j of `b` accepted the A_OPEN of socket i of `a`. */
  predicate Linked(v: World, i: nat, j: nat)
  {
    && i in v.a.socks && j in v.b.socks
    && v.a.socks[i].opener && !v.b.socks[j].opener && v.b.socks[j].peer == i
  }

  predicate Paired(v: World, i: nat, j: nat)
  {
    Linked(v, i, j) || Linked(Flip(v), j, i)
  }

  /** The stream of sockets i and j, seen from `a`. */
  function View(v: World, i: nat, j: nat): (d: Duplex)
    requires i in v.a.socks && j in v.b.socks
  {
    Duplex(v.a.socks[i].end, v.b.socks[j].end, Pick(v.ab, i, j), Pick(v.ba, j, i))
  }

  // --- what keeps streams apart ---

  predicate SockOk(v: World, i: nat)
    requires i in v.a.socks
  {
    var s := v.a.socks[i];
    && 0 < i < v.a.nextId
    && (if s.opener then
          && (s.end.phase == Waiting ==> s.peer == 0)
          && (s.end.phase == Open ==> s.peer != 0)
          && (s.peer != 0 ==> Linked(v, i, s.peer))
        else
          s.end.phase != Waiting && Linked(Flip(v), s.peer, i))
  }

  /** No socket of `b` was created for the A_OPEN of socket i of `a`. */
  predicate Unanswered(v: World, i: nat)
  {
    forall j :: j in v.b.socks ==> !Linked(v, i, j)
  }

  /** A message on its way from `a`. */
  predicate MsgOk(v: World, m: Msg)
  {
    match m
    case MOpen(x) =>
      && x in v.a.socks && v.a.socks[x].opener && v.a.socks[x].peer == 0
      && (v.a.socks[x].end == Waiter || v.a.socks[x].end == Waiter.(phase := Dead, cause := ByLocal))
      && Unanswered(v, x) && MClse(0, x) !in v.ba
    case MClse(x, y) =>
      if x == 0 then y in v.b.socks && v.b.socks[y].opener && Unanswered(Flip(v), y)
      else y != 0 && x in v.a.socks && v.a.socks[x].peer == y
    case MOkay(x, y) => y != 0 && x in v.a.socks && v.a.socks[x].peer == y
    case MWrte(x, y, _) => y != 0 && x in v.a.socks && v.a.socks[x].peer == y
  }

  predicate OpenOnce(ms: seq<Msg>)
  {
    forall k, k' :: 0 <= k < k' < |ms| && ms[k].MOpen? ==> ms[k] != ms[k']
  }

  /** No two sockets of a process answer the same A_OPEN. */
  predicate OneAnswer(n: Node)
  {
    forall j, j' | j in n.socks && j' in n.socks && !n.socks[j].opener && !n.socks[j'].opener
      :: n.socks[j].peer == n.socks[j'].peer ==> j == j'
  }

  predicate HalfOk(v: World)
  {
    && 0 < v.a.nextId
    && (forall i :: i in v.a.socks ==> SockOk(v, i))
    && OneAnswer(v.b)
    && (forall m :: m in v.ab ==> MsgOk(v, m))
    && OpenOnce(v.ab)
  }

  predicate WorldOk(v: World)
  {
    HalfOk(v) && HalfOk(Flip(v))
  }

  // --- picking one stream's packets out of a channel ---

  lemma {:induction false} PickAppend(ms: seq<Msg>, more: seq<Msg>, x: nat, y: nat)
    ensures Pick(ms + more, x, y) == Pick(ms, x, y) + Pick(more, x, y)
  {
    if ms == [] {
      assert ms + more == more;
    } else {
      assert (ms + more)[1..] == ms[1..] + more;
      PickAppend(ms[1..], more, x, y);
    }
  }

  lemma {:induction false} PickAddress(ps: seq<Packet>, id: nat, peer: nat, x: nat, y: nat)
    ensures Pick(Address(ps, id, peer), x, y) == if id == x && peer == y then ps else []
  {
    if ps != [] {
      PickAddress(ps[1..], id, peer, x, y);
      assert Address(ps, id, peer)[1..] == Address(ps[1..], id, peer);
      assert ps == [ps[0]] + ps[1..];
    }
  }

  /** Only an open socket sends. */
  lemma SendsWhenOpen(e: End, ev: Event)
    requires LocalEnabled(Sock(e, 0, false), ev)
    ensures var res := StreamProtocol.Act(Duplex(e, e, [], []), ev);
            && |res.1| <= 1 && (res.1 != [] ==> e.phase == Open)
            && res.0.phase != Waiting
            && (res.0.phase == Open ==> e.phase == Open)
  {
  }

  /** A message to socket i of a pair comes from its partner. */
  lemma SenderIsPartner(v: World, i: nat, j: nat, m: Msg)
    requires WorldOk(v) && Paired(v, i, j) && m in v.ba && !m.MOpen? && m.arg1 == i
    ensures m.arg0 == j
  {
  }

  /** A socket that is open is bound to its partner. */
  lemma OpenIsBound(v: World, i: nat, j: nat)
    requires WorldOk(v) && Paired(v, i, j)
    ensures v.a.socks[i].end.phase == Open ==> v.a.socks[i].peer == j
    ensures v.a.socks[i].peer == 0 || v.a.socks[i].peer == j
  {
  }

  lemma ViewConnect(v: World, i: nat, j: nat)
    requires WorldOk(v) && Paired(v, i, j)
    ensures var v' := StepA(v, Connect); i in v'.a.socks && j in v'.b.socks && View(v', i, j) == View(v, i, j)
  {
    assert SockOk(v, i);
    PickAppend(v.ab, [MOpen(v.a.nextId)], i, j);
    assert Pick([MOpen(v.a.nextId)], i, j) == [];
  }

  lemma ViewLocal(v: World, id: nat, ev: Event, i: nat, j: nat)
    requires WorldOk(v) && Paired(v, i, j)
    requires id in v.a.socks && LocalEnabled(v.a.socks[id], ev)
    ensures var v' := StepA(v, Local(id, ev));
            && i in v'.a.socks && j in v'.b.socks
            && View(v', i, j) == (if id == i then StepLeft(View(v, i, j), ev) else View(v, i, j))
  {
    var s := v.a.socks[id];
    var res := StreamProtocol.Act(Duplex(s.end, s.end, [], []), ev);
    OpenIsBound(v, i, j);
    SendsWhenOpen(s.end, ev);
    PickAppend(v.ab, Address(res.1, id, s.peer), i, j);
    PickAddress(res.1, id, s.peer, i, j);
  }

  function Strip(m: Msg): (p: Packet)
    requires !m.MOpen?
  {
    match m case MOkay(_, _) => Okay case MWrte(_, _, d) => Wrte(d) case MClse(_, _) => Clse
  }

  /** handle_packet on a message between partners is Handle on the packet in it. */
  lemma HandlePartner(n: Node, m: Msg, w: Writes, found: bool)
    requires !m.MOpen? && m.arg0 != 0 && m.arg1 != 0 && m.arg1 in n.socks
    requires n.socks[m.arg1].end.phase == Open ==> n.socks[m.arg1].peer == m.arg0
    ensures var (n', ms) := HandleMsg(n, m, w, found);
            var res := Handle(n.socks[m.arg1].end, Strip(m), w);
            && m.arg1 in n'.socks && n'.socks[m.arg1].end == res.0
            && ms == Address(res.1, m.arg1, m.arg0)
  {
  }

  /** A packet of the stream (i, j) arrives. */
  lemma ViewDeliver(v: World, w: Writes, found: bool, i: nat, j: nat)
    requires WorldOk(v) && Paired(v, i, j) && v.ba != []
    requires !v.ba[0].MOpen? && v.ba[0].arg0 == j && v.ba[0].arg1 == i
    ensures var v' := StepA(v, Deliver(w, found));
            && i in v'.a.socks && j in v'.b.socks
            && Enabled(View(v, i, j), Receive(w))
            && View(v', i, j) == StepLeft(View(v, i, j), Receive(w))
  {
    OpenIsBound(v, i, j);
    assert 0 < i && 0 < j by { assert SockOk(v, i) && SockOk(Flip(v), j); }
    HandlePartner(v.a, v.ba[0], w, found);
    assert Pick(v.ba, j, i) == [Strip(v.ba[0])] + Pick(v.ba[1..], j, i);
    var sends := Handle(v.a.socks[i].end, Strip(v.ba[0]), w).1;
    PickAppend(v.ab, Address(sends, i, j), i, j);
    PickAddress(sends, i, j, i, j);
  }

  /** A message that belongs to another stream arrives. */
  lemma ViewOther(v: World, w: Writes, found: bool, i: nat, j: nat)
    requires WorldOk(v) && Paired(v, i, j) && v.ba != []
    requires v.ba[0].MOpen? || v.ba[0].arg0 != j || v.ba[0].arg1 != i
    ensures var v' := StepA(v, Deliver(w, found));
            && i in v'.a.socks && j in v'.b.socks
            && View(v', i, j) == View(v, i, j)
  {
    var m := v.ba[0];
    assert SockOk(v, i) && SockOk(Flip(v), j);
    assert Pick(v.ba, j, i) == Pick(v.ba[1..], j, i);
    if !m.MOpen? && m.arg1 == i { SenderIsPartner(v, i, j, m); }
    HandleMsgIds(v.a, m, w, found, i, j);
    PickAppend(v.ab, HandleMsg(v.a, m, w, found).1, i, j);
  }

  /** A message to one socket changes and sends nothing on behalf of another. */
  lemma HandleMsgIds(n: Node, m: Msg, w: Writes, found: bool, i: nat, j: nat)
    requires i in n.socks && 0 < i < n.nextId && (m.MOpen? || m.arg1 != i)
    ensures var (n', ms) := HandleMsg(n, m, w, found);
            && i in n'.socks && n'.socks[i] == n.socks[i] && Pick(ms, i, j) == []
  {
  }

  // --- every step keeps streams apart ---

  /** Dropping the first message of a channel. */
  lemma DropOk(v: World)
    requires WorldOk(v) && v.ba != []
    ensures WorldOk(v.(ba := v.ba[1..]))
  {
    var v' := v.(ba := v.ba[1..]);
    assert forall m :: m in v'.ba ==> m in v.ba;
    forall i | i in v'.a.socks ensures SockOk(v', i) { assert SockOk(v, i); }
    forall i | i in v'.b.socks ensures SockOk(Flip(v'), i) { assert SockOk(Flip(v), i); }
    forall m | m in v'.ab ensures MsgOk(v', m) { assert MsgOk(v, m); UnansweredSame(v, v'); }
    forall m | m in v'.ba ensures MsgOk(Flip(v'), m) { assert MsgOk(Flip(v), m); UnansweredSame(v, v'); }
  }

  lemma UnansweredSame(v: World, v': World)
    requires v'.a == v.a && v'.b == v.b
    ensures forall i :: Unanswered(v, i) ==> Unanswered(v', i)
    ensures forall i :: Unanswered(Flip(v), i) ==> Unanswered(Flip(v'), i)
  {
  }

  /** How an operation may change a socket. */
  predicate Evolves(v: World, id: nat, s': Sock)
    requires id in v.a.socks
  {
    var s := v.a.socks[id];
    && s'.opener == s.opener
    && (s'.peer == s.peer || (s.opener && s.peer == 0 && Linked(v, id, s'.peer)))
    && s'.end.phase != Waiting
    && (s'.end.phase == Open ==> s'.peer != 0)
    && (MOpen(id) in v.ab ==> s'.peer == 0 && s'.end == Waiter.(phase := Dead, cause := ByLocal))
  }

  /** Such a change keeps links: none appears and none goes. */
  lemma EvolveLinks(v: World, id: nat, s': Sock, ab: seq<Msg>)
    requires id in v.a.socks && WorldOk(v) && Evolves(v, id, s')
    ensures var v' := v.(a := Put(v.a, id, s'), ab := ab);
            && (forall i, j :: Linked(v', i, j) <==> Linked(v, i, j))
            && (forall i, j :: Linked(Flip(v'), j, i) <==> Linked(Flip(v), j, i))
            && (forall i :: Unanswered(v, i) ==> Unanswered(v', i))
            && (forall i :: Unanswered(Flip(v), i) ==> Unanswered(Flip(v'), i))
  {
  }

  lemma EvolveSocks(v: World, id: nat, s': Sock, ab: seq<Msg>, i: nat)
    requires id in v.a.socks && WorldOk(v) && Evolves(v, id, s') && i in v.a.socks
    ensures SockOk(v.(a := Put(v.a, id, s'), ab := ab), i)
  {
  }

  lemma AddressOpens(ms: seq<Msg>, ps: seq<Packet>, id: nat, peer: nat)
    requires OpenOnce(ms) && |ps| <= 1
    ensures OpenOnce(ms + Address(ps, id, peer))
  {
  }

  /** Its own process stays in order, */
  lemma EvolveHere(v: World, id: nat, s': Sock, sends: seq<Packet>)
    requires id in v.a.socks && WorldOk(v) && Evolves(v, id, s')
    requires |sends| <= 1 && (sends != [] ==> s'.peer != 0)
    ensures HalfOk(v.(a := Put(v.a, id, s'), ab := v.ab + Address(sends, id, s'.peer)))
  {
    var ms := Address(sends, id, s'.peer);
    var v' := v.(a := Put(v.a, id, s'), ab := v.ab + ms);
    AddressOpens(v.ab, sends, id, s'.peer);
    forall i | i in v'.a.socks ensures SockOk(v', i) { EvolveSocks(v, id, s', v'.ab, i); }
    forall m | m in v'.ab ensures MsgOk(v', m) {
      if m in v.ab {
        assert MsgOk(v, m);
        EvolveLinks(v, id, s', v'.ab);
        EvolveMsg(v, id, s', m, v');
      } else {
        assert m == ms[0] && SockOk(v, id);
      }
    }
    assert OneAnswer(v'.b);
  }

  /** and so does the other one. */
  lemma EvolveThere(v: World, id: nat, s': Sock, ab: seq<Msg>)
    requires id in v.a.socks && WorldOk(v) && Evolves(v, id, s')
    requires forall x :: MClse(0, x) in ab ==> MClse(0, x) in v.ab
    ensures HalfOk(Flip(v.(a := Put(v.a, id, s'), ab := ab)))
  {
    var v' := v.(a := Put(v.a, id, s'), ab := ab);
    EvolveLinks(v, id, s', ab);
    EvolveAnswers(v, id, s');
    forall j | j in v'.b.socks ensures SockOk(Flip(v'), j) { assert SockOk(Flip(v), j); }
    forall m | m in v'.ba ensures MsgOk(Flip(v'), m) { assert MsgOk(Flip(v), m); }
    assert OpenOnce(v'.ba);
  }

  lemma EvolveOk(v: World, id: nat, s': Sock, sends: seq<Packet>)
    requires id in v.a.socks && WorldOk(v) && Evolves(v, id, s')
    requires |sends| <= 1 && (sends != [] ==> s'.peer != 0)
    ensures WorldOk(v.(a := Put(v.a, id, s'), ab := v.ab + Address(sends, id, s'.peer)))
  {
    EvolveHere(v, id, s', sends);
    assert SockOk(v, id);
    EvolveThere(v, id, s', v.ab + Address(sends, id, s'.peer));
  }

  lemma EvolveAnswers(v: World, id: nat, s': Sock)
    requires id in v.a.socks && WorldOk(v) && Evolves(v, id, s')
    ensures OneAnswer(Put(v.a, id, s'))
  {
  }

  /** A message already on its way stays in order. */
  lemma EvolveMsg(v: World, id: nat, s': Sock, m: Msg, v': World)
    requires id in v.a.socks && WorldOk(v) && Evolves(v, id, s') && m in v.ab && MsgOk(v, m)
    requires v'.a == Put(v.a, id, s') && v'.b == v.b && v'.ba == v.ba
    requires forall i :: Unanswered(v, i) ==> Unanswered(v', i)
    requires forall i :: Unanswered(Flip(v), i) ==> Unanswered(Flip(v'), i)
    ensures MsgOk(v', m)
  {
  }

  /** A new socket of `a`, under the next id, and one message. */
  function Add(v: World, s: Sock, m: Msg): (v': World)
  {
    v.(a := Put(v.a.(nextId := v.a.nextId + 1), v.a.nextId, s), ab := v.ab + [m])
  }

  /** Its links: it answers at most the A_OPEN it was created for. */
  lemma AddLinks(v: World, s: Sock, m: Msg)
    requires WorldOk(v)
    ensures var v' := Add(v, s, m);
            && v.a.nextId !in v.a.socks
            && (forall i, j :: Linked(v', i, j) <==> Linked(v, i, j))
            && (forall i, j :: Linked(Flip(v'), j, i) <==>
                  (Linked(Flip(v), j, i)
                   || (i == v.a.nextId && !s.opener && s.peer == j && j in v.b.socks && v.b.socks[j].opener)))
            && (forall i :: Unanswered(v, i) ==> Unanswered(v', i))
            && (forall j :: Unanswered(Flip(v), j) && (s.opener || s.peer != j) ==> Unanswered(Flip(v'), j))
  {
  }

  lemma AddSocks(v: World, s: Sock, m: Msg)
    requires WorldOk(v)
    ensures var v' := Add(v, s, m);
            && (forall i :: i in v.a.socks ==> SockOk(v', i))
            && (forall j :: j in v.b.socks ==> SockOk(Flip(v'), j))
  {
  }

  /** Messages from `a` stay in order when a socket is added. */
  lemma AddMsgs(v: World, s: Sock, m: Msg, x: Msg)
    requires WorldOk(v) && x in v.ab
    requires !s.opener ==> MClse(0, s.peer) !in v.ab
    ensures MsgOk(Add(v, s, m), x)
  {
  }

  lemma ConnectOk(v: World)
    requires WorldOk(v)
    ensures WorldOk(StepA(v, Connect))
  {
    if v.a.nextId < MAX_ID {
      var id := v.a.nextId;
      var s, m := Sock(Waiter, 0, true), MOpen(id);
      var v' := Add(v, s, m);
      AddLinks(v, s, m);
      AddSocks(v, s, m);
      forall x | x in v'.ab ensures MsgOk(v', x) {
        if x in v.ab { AddMsgs(v, s, m, x); } else { ConnectOpenOk(v); }
      }
      forall x | x in v'.ba ensures MsgOk(Flip(v'), x) { assert MsgOk(Flip(v), x); }
      assert OpenOnce(v'.ab) by { assert OpenOnce(v.ab); assert m in v.ab ==> MsgOk(v, m); }
      assert OneAnswer(v'.a) by { assert OneAnswer(v.a); }
      assert OneAnswer(v'.b) && OpenOnce(v'.ba);
      assert HalfOk(v') && HalfOk(Flip(v'));
    }
  }

  /** The A_OPEN of a new socket is in order. */
  lemma ConnectOpenOk(v: World)
    requires WorldOk(v)
    ensures MsgOk(Add(v, Sock(Waiter, 0, true), MOpen(v.a.nextId)), MOpen(v.a.nextId))
  {
  }

  lemma AcceptOk(v: World, x: nat)
    requires WorldOk(v)
    requires x in v.b.socks && v.b.socks[x].opener && Unanswered(Flip(v), x)
    requires MClse(0, x) !in v.ab && MOpen(x) !in v.ba
    ensures WorldOk(Add(v, Sock(Fresh, x, false), MOkay(v.a.nextId, x)))
  {
    var id := v.a.nextId;
    var s, m := Sock(Fresh, x, false), MOkay(id, x);
    var v' := Add(v, s, m);
    assert SockOk(Flip(v), x);
    AddLinks(v, s, m);
    AddSocks(v, s, m);
    assert SockOk(v', id);
    forall y | y in v'.ab ensures MsgOk(v', y) {
      if y in v.ab { AddMsgs(v, s, m, y); }
    }
    forall y | y in v'.ba ensures MsgOk(Flip(v'), y) { assert MsgOk(Flip(v), y); }
    assert OpenOnce(v'.ab) by { assert OpenOnce(v.ab); }
    assert OneAnswer(v'.a) by { AcceptAnswers(v, x); }
    assert OneAnswer(v'.b) && OpenOnce(v'.ba);
    assert HalfOk(v') && HalfOk(Flip(v'));
  }

  lemma AcceptAnswers(v: World, x: nat)
    requires WorldOk(v) && x in v.b.socks && v.b.socks[x].opener && Unanswered(Flip(v), x)
    ensures OneAnswer(Add(v, Sock(Fresh, x, false), MOkay(v.a.nextId, x)).a)
  {
  }

  lemma RefuseOk(v: World, x: nat)
    requires WorldOk(v)
    requires x in v.b.socks && v.b.socks[x].opener && Unanswered(Flip(v), x)
    requires MOpen(x) !in v.ba
    ensures WorldOk(v.(ab := v.ab + [MClse(0, x)]))
  {
  }

  lemma LocalOk(v: World, id: nat, ev: Event)
    requires WorldOk(v) && id in v.a.socks && LocalEnabled(v.a.socks[id], ev)
    ensures WorldOk(StepA(v, Local(id, ev)))
  {
    var s := v.a.socks[id];
    var res := StreamProtocol.Act(Duplex(s.end, s.end, [], []), ev);
    SendsWhenOpen(s.end, ev);
    assert SockOk(v, id);
    assert MOpen(id) in v.ab ==> MsgOk(v, MOpen(id));
    EvolveOk(v, id, Sock(res.0, s.peer, s.opener), res.1);
  }

  /** The message is for a listed socket and comes from its partner, or binds it. */
  predicate Hits(n: Node, m: Msg)
  {
    && !m.MOpen? && m.arg1 in n.socks && Live(n.socks[m.arg1].end)
    && (if n.socks[m.arg1].end.phase == Waiting then m.MOkay? || m.arg0 == 0
        else m.arg0 == n.socks[m.arg1].peer)
  }

  lemma MissOk(v: World, m: Msg, w: Writes, found: bool)
    requires WorldOk(v) && m in v.ba && !m.MOpen? && !Hits(v.a, m)
    ensures HandleMsg(v.a, m, w, found) == (v.a, [])
  {
  }

  lemma HitOk(v: World, m: Msg, w: Writes, found: bool)
    requires WorldOk(v) && m in v.ba && Hits(v.a, m)
    ensures var (n, ms) := HandleMsg(v.a, m, w, found);
            WorldOk(v.(a := n, ab := v.ab + ms))
  {
    var y := m.arg1;
    var s := v.a.socks[y];
    assert MsgOk(Flip(v), m) && SockOk(v, y);
    assert MOpen(y) in v.ab ==> MsgOk(v, MOpen(y));
    if m.arg0 != 0 { assert SockOk(Flip(v), m.arg0); }
    match m
    case MOkay(x, _) =>
      var res := Handle(s.end, Okay, w);
      EvolveOk(v, y, Sock(res.0, x, s.opener), res.1);
    case MWrte(x, _, d) =>
      var res := Handle(s.end, Wrte(d), w);
      EvolveOk(v, y, Sock(res.0, x, s.opener), res.1);
    case MClse(x, _) =>
      var res := Close(s.end, true, ByPeer);
      EvolveOk(v, y, Sock(res.0, s.peer, s.opener), res.1);
  }

  /** An A_OPEN names a socket that no one has answered. */
  lemma OpenIsNew(v: World, x: nat)
    requires WorldOk(v) && v.ba != [] && v.ba[0] == MOpen(x)
    ensures var v1 := v.(ba := v.ba[1..]);
            && WorldOk(v1) && x != 0 && x in v.b.socks && v.b.socks[x].opener
            && Unanswered(Flip(v1), x) && MClse(0, x) !in v.ab && MOpen(x) !in v1.ba
  {
    DropOk(v);
    assert MsgOk(Flip(v), v.ba[0]) && SockOk(Flip(v), x);
    UnansweredSame(v, v.(ba := v.ba[1..]));
    assert OpenOnce(v.ba);
  }

  lemma OpenOk(v: World, w: Writes, found: bool)
    requires WorldOk(v) && v.ba != [] && v.ba[0].MOpen?
    ensures WorldOk(StepA(v, Deliver(w, found)))
  {
    var x := v.ba[0].arg0;
    OpenIsNew(v, x);
    assert v.ab + [] == v.ab;
    if found { AcceptOk(v.(ba := v.ba[1..]), x); } else { RefuseOk(v.(ba := v.ba[1..]), x); }
  }

  lemma StepAOk(v: World, act: Action)
    requires WorldOk(v)
    ensures WorldOk(StepA(v, act))
  {
    match act
    case Connect => ConnectOk(v);
    case Local(id, ev) =>
      if id in v.a.socks && LocalEnabled(v.a.socks[id], ev) { LocalOk(v, id, ev); }
    case Deliver(w, found) =>
      if v.ba != [] {
        var m := v.ba[0];
        var (n, ms) := HandleMsg(v.a, m, w, found);
        if m.MOpen? {
          OpenOk(v, w, found);
        } else {
          if Hits(v.a, m) { HitOk(v, m, w, found); }
          else { MissOk(v, m, w, found); assert v.ab + [] == v.ab; }
          DropOk(v.(a := n, ab := v.ab + ms));
        }
      }
  }

  // --- streams do not interfere ---

  /** The event that an action of `a` is for the stream of its socket i with j: its own events,
      and the arrival of messages from j to i.  Anything else is none, written as a read of
      nothing. */
  function EventOf(v: World, act: Action, i: nat, j: nat): (ev: Event)
  {
    match act
    case Connect => Readable([])
    case Local(id, ev) => if id == i && !ev.Receive? then ev else Readable([])
    case Deliver(w, _) =>
      if v.ba != [] && !v.ba[0].MOpen? && v.ba[0].arg0 == j && v.ba[0].arg1 == i then Receive(w) else Readable([])
  }

  /** A step of `a` is, for each pair of sockets, exactly that event of the left end. */
  lemma ViewStep(v: World, act: Action, i: nat, j: nat)
    requires WorldOk(v) && Paired(v, i, j)
    ensures var v' := StepA(v, act);
            && i in v'.a.socks && j in v'.b.socks
            && View(v', i, j) == Step(View(v, i, j), Left(EventOf(v, act, i, j)))
  {
    assert Step(View(v, i, j), Left(Readable([]))) == View(v, i, j);
    match act
    case Connect => ViewConnect(v, i, j);
    case Local(id, ev) =>
      if id in v.a.socks && LocalEnabled(v.a.socks[id], ev) {
        ViewLocal(v, id, ev, i, j);
      }
    case Deliver(w, found) =>
      if v.ba != [] {
        if !v.ba[0].MOpen? && v.ba[0].arg0 == j && v.ba[0].arg1 == i {
          ViewDeliver(v, w, found, i, j);
        } else {
          ViewOther(v, w, found, i, j);
        }
      }
  }

  /** The state of a stream that some run of the one-stream protocol reaches. */
  ghost predicate IsRun(d: Duplex)
  {
    exists d0, moves :: Accepted(d0) && Run(d0, moves) == d
  }

  lemma IsRunStep(d: Duplex, m: Move)
    requires IsRun(d)
    ensures IsRun(Step(d, m))
  {
    var d0, moves :| Accepted(d0) && Run(d0, moves) == d;
    assert (moves + [m])[..|moves|] == moves;
    assert Run(d0, moves + [m]) == Step(d, m);
  }

  /** Swapping the ends of a step. */
  lemma MirrorStep(d: Duplex, m: Move)
    requires m.Left?
    ensures Step(Mirror(d), Right(m.ev)) == Mirror(Step(d, m))
  {
  }

  ghost predicate Streams(v: World)
  {
    && (forall i, j :: Linked(v, i, j) ==> IsRun(View(v, i, j)))
    && (forall i, j :: Linked(Flip(v), j, i) ==> IsRun(Mirror(View(v, i, j))))
  }

  lemma {:induction false} PickNone(ms: seq<Msg>, x: nat, y: nat)
    requires forall m :: m in ms ==> m.MOpen? || m.arg0 != x || m.arg1 != y
    ensures Pick(ms, x, y) == []
  {
    if ms != [] {
      assert ms[0] in ms;
      assert forall m :: m in ms[1..] ==> m in ms;
      PickNone(ms[1..], x, y);
    }
  }

  /** The stream that accepting an A_OPEN creates. */
  lemma AcceptedView(v: World, x: nat)
    requires WorldOk(v) && v.ba != [] && v.ba[0] == MOpen(x)
    ensures var v' := Add(v.(ba := v.ba[1..]), Sock(Fresh, x, false), MOkay(v.a.nextId, x));
            && x in v.b.socks && Accepted(Mirror(View(v', v.a.nextId, x)))
  {
    var id := v.a.nextId;
    assert MsgOk(Flip(v), MOpen(x)) && SockOk(Flip(v), x);
    assert id in v.a.socks ==> SockOk(v, id);
    forall m | m in v.ba[1..] ensures m.MOpen? || m.arg0 != x || m.arg1 != id {
      assert m in v.ba && MsgOk(Flip(v), m);
    }
    PickNone(v.ba[1..], x, id);
    forall m | m in v.ab ensures m.MOpen? || m.arg0 != id || m.arg1 != x { assert MsgOk(v, m); }
    PickNone(v.ab, id, x);
    PickAppend(v.ab, [MOkay(id, x)], id, x);
    assert Pick([MOkay(id, x)], id, x) == [Okay] + Pick([], id, x);
  }

  /** The sockets a step of `a` can link: those linked before, and the one it creates
      for an A_OPEN. */
  lemma StepLinks(v: World, act: Action, i: nat, j: nat)
    requires WorldOk(v)
    ensures Paired(StepA(v, act), i, j) ==>
              || Paired(v, i, j)
              || (act.Deliver? && v.ba != [] && v.ba[0] == MOpen(j) && act.found && i == v.a.nextId < MAX_ID)
  {
    match act
    case Connect =>
      if v.a.nextId < MAX_ID { AddLinks(v, Sock(Waiter, 0, true), MOpen(v.a.nextId)); }
    case Local(id, ev) =>
    case Deliver(w, found) =>
      if v.ba != [] {
        var m := v.ba[0];
        assert MsgOk(Flip(v), m);
        if m.MOpen? {
          var v1 := v.(ba := v.ba[1..]);
          DropOk(v);
          AddLinks(v1, Sock(Fresh, m.arg0, false), MOkay(v.a.nextId, m.arg0));
        } else if m.arg1 in v.a.socks {
          assert SockOk(v, m.arg1);
        }
      }
  }

  lemma StreamsStep(v: World, act: Action)
    requires WorldOk(v) && Streams(v)
    ensures Streams(StepA(v, act))
  {
    var v' := StepA(v, act);
    forall i, j | Paired(v', i, j)
      ensures Linked(v', i, j) ==> IsRun(View(v', i, j))
      ensures Linked(Flip(v'), j, i) ==> IsRun(Mirror(View(v', i, j)))
    {
      if Paired(v, i, j) {
        StreamStep(v, act, i, j);
      } else {
        StepLinks(v, act, i, j);
        AcceptedView(v, j);
        var d := Mirror(View(v', i, j));
        assert Run(d, []) == d;
      }
    }
  }

  lemma StreamStep(v: World, act: Action, i: nat, j: nat)
    requires WorldOk(v) && Streams(v) && Paired(v, i, j)
    ensures var v' := StepA(v, act);
            && i in v'.a.socks && j in v'.b.socks
            && (Linked(v', i, j) ==> IsRun(View(v', i, j)))
            && (Linked(Flip(v'), j, i) ==> IsRun(Mirror(View(v', i, j))))
  {
    var v' := StepA(v, act);
    ViewStep(v, act, i, j);
    var m := Left(EventOf(v, act, i, j));
    if Linked(v, i, j) {
      IsRunStep(View(v, i, j), m);
    } else {
      MirrorStep(View(v, i, j), m);
      IsRunStep(Mirror(View(v, i, j)), Right(m.ev));
    }
  }

  lemma FlipOk(v: World)
    requires WorldOk(v) && Streams(v)
    ensures WorldOk(Flip(v)) && Streams(Flip(v))
  {
  }

  lemma {:induction false} WorldRunOk(moves: seq<WorldMove>)
    ensures WorldOk(WorldRun(moves)) && Streams(WorldRun(moves))
    decreases |moves|
  {
    if moves != [] {
      var v := WorldRun(moves[..|moves| - 1]);
      WorldRunOk(moves[..|moves| - 1]);
      match moves[|moves| - 1]
      case AtA(act) =>
        StepAOk(v, act);
        StreamsStep(v, act);
      case AtB(act) =>
        FlipOk(v);
        StepAOk(Flip(v), act);
        StreamsStep(Flip(v), act);
        FlipOk(StepA(Flip(v), act));
    }
  }

  /** What every run of the one-stream protocol promises. */
  ghost predicate StreamKept(d: Duplex)
  {
    && IsRun(d)
    && d.r.written <= d.l.read && d.l.written <= d.r.read
    && (Live(d.l) && Live(d.r) ==> Credits(d) == 1 && Credits(Mirror(d)) == 1)
    && Wrtes(d.lr) + |d.r.queue| <= 1 && Wrtes(d.rl) + |d.l.queue| <= 1
  }

  lemma RunKeeps(d: Duplex)
    requires IsRun(d)
    ensures StreamKept(d)
  {
    var d0, ms :| Accepted(d0) && Run(d0, ms) == d;
    StreamIntegrity(d0, ms);
    CreditConservation(d0, ms);
  }

  /** Streams do not interfere: in every reachable world the stream between a socket and
      the socket that accepted it, whichever process opened it, is in a state of the
      one-stream protocol, so that its bytes arrive in order and its credit is conserved. */
  lemma StreamsAreIndependent(moves: seq<WorldMove>, i: nat, j: nat)
    ensures Linked(WorldRun(moves), i, j) ==> StreamKept(View(WorldRun(moves), i, j))
    ensures Linked(Flip(WorldRun(moves)), j, i) ==> StreamKept(Mirror(View(WorldRun(moves), i, j)))
  {
    hide WorldOk, IsRun, StreamKept;
    WorldRunOk(moves);
    var v := WorldRun(moves);
    if Linked(v, i, j) { RunKeeps(View(v, i, j)); }
    if Linked(Flip(v), j, i) { RunKeeps(Mirror(View(v, i, j))); }
  }

  /** Every action of either process is exactly its event at its end of each stream: nothing
      that the protocol allows is left undone, and nothing else is done. */
  lemma EveryMoveHappens(moves: seq<WorldMove>, m: WorldMove, i: nat, j: nat)
    requires Paired(WorldRun(moves), i, j)
    ensures var v, v' := WorldRun(moves), WorldRun(moves + [m]);
            && i in v'.a.socks && j in v'.b.socks
            && View(v', i, j) == Step(View(v, i, j), if m.AtA? then Left(EventOf(v, m.act, i, j))
                                                     else Right(EventOf(Flip(v), m.act, j, i)))
  {
    hide WorldOk, Streams, StepA;
    var v := WorldRun(moves);
    WorldRunOk(moves);
    WorldRunSnoc(moves, m);
    if m.AtA? {
      ViewStep(v, m.act, i, j);
    } else {
      FlipOk(v);
      ViewStep(Flip(v), m.act, j, i);
      MirrorStep(View(Flip(v), j, i), Left(EventOf(Flip(v), m.act, j, i)));
    }
  }

  /** Ids are not 0, were given out, and name at most one stream. */
  lemma IdsAreUnique(moves: seq<WorldMove>, i: nat, j: nat, j': nat)
    requires Linked(WorldRun(moves), i, j) && Linked(WorldRun(moves), i, j')
    ensures j == j' && 0 < i < WorldRun(moves).a.nextId && 0 < j < WorldRun(moves).b.nextId
  {
    WorldRunOk(moves);
    var v := WorldRun(moves);
    assert SockOk(v, i) && SockOk(Flip(v), j) && OneAnswer(v.b);
  }

  // --- opening a stream ---

  /** connect_to_remote: a waiting socket under the next id, and its A_OPEN. */
  lemma ConnectOpens(v: World)
    requires WorldOk(v) && v.a.nextId < MAX_ID
    ensures var id, v' := v.a.nextId, StepA(v, Connect);
            && id !in v.a.socks && v'.a.socks == v.a.socks[id := Sock(Waiter, 0, true)]
            && v'.ab == v.ab + [MOpen(id)] && v'.b == v.b && v'.ba == v.ba
  {
    assert v.a.nextId in v.a.socks ==> SockOk(v, v.a.nextId);
  }

  /** An A_OPEN for a service that exists is accepted: a new socket is linked to the opener, the
      two are a stream at its start, A_OKAY is the answer, and no other socket changes. */
  lemma OpenIsAccepted(v: World, w: Writes, x: nat)
    requires WorldOk(v) && v.ba != [] && v.ba[0] == MOpen(x) && v.a.nextId < MAX_ID
    ensures var id, v' := v.a.nextId, StepA(v, Deliver(w, true));
            && Linked(Flip(v'), x, id) && Accepted(Mirror(View(v', id, x)))
            && v'.ab == v.ab + [MOkay(id, x)] && v'.ba == v.ba[1..] && v'.b == v.b
            && id !in v.a.socks && v'.a.socks.Keys == v.a.socks.Keys + {id}
            && forall i :: i in v.a.socks ==> v'.a.socks[i] == v.a.socks[i]
  {
    AcceptedView(v, x);
    assert MsgOk(Flip(v), MOpen(x)) && SockOk(Flip(v), x);
    assert v.a.nextId in v.a.socks ==> SockOk(v, v.a.nextId);
  }

  /** For any other it is refused with A_CLSE(0, x). */
  lemma OpenIsRefused(v: World, w: Writes, x: nat)
    requires WorldOk(v) && v.ba != [] && v.ba[0] == MOpen(x)
    ensures StepA(v, Deliver(w, false)) == v.(ab := v.ab + [MClse(0, x)], ba := v.ba[1..])
  {
    assert MsgOk(Flip(v), MOpen(x)) && SockOk(Flip(v), x);
  }

  /** A refusal takes the waiting opener off the list, and sends nothing. */
  lemma RefusalCloses(v: World, w: Writes, found: bool, y: nat)
    requires WorldOk(v) && v.ba != [] && v.ba[0] == MClse(0, y)
    ensures var v' := StepA(v, Deliver(w, found));
            && y in v'.a.socks && !Live(v'.a.socks[y].end)
            && v'.ab == v.ab && v'.ba == v.ba[1..] && v'.b == v.b
            && forall i :: i in v.a.socks && i != y ==> i in v'.a.socks && v'.a.socks[i] == v.a.socks[i]
  {
    assert MsgOk(Flip(v), MClse(0, y)) && SockOk(v, y);
    assert v.a.socks[y].end.phase == Open ==> !Linked(v, y, v.a.socks[y].peer);
    assert v.ab + [] == v.ab;
  }

  /** The A_OKAY that accepts it binds the waiting opener to its sender, and lets it send. */
  lemma OkayBinds(v: World, w: Writes, found: bool, x: nat, y: nat)
    requires WorldOk(v) && v.ba != [] && v.ba[0] == MOkay(x, y)
    requires y in v.a.socks && v.a.socks[y].end.phase == Waiting
    ensures var s := v.a.socks[y];
            StepA(v, Deliver(w, found))
              == v.(a := Put(v.a, y, Sock(s.end.(phase := Open, readOn := true), x, s.opener)), ba := v.ba[1..])
  {
    assert MsgOk(Flip(v), MOkay(x, y)) && SockOk(Flip(v), x);
    assert v.ab + [] == v.ab;
  }

  /** On an idle connection between any two processes, opening a stream to a service that
      exists takes three steps: then two open sockets are linked, each may send, and nothing
      is under way. */
  lemma OpeningCompletes(moves: seq<WorldMove>, w: Writes)
    requires var v := WorldRun(moves); v.ab == [] && v.ba == [] && v.a.nextId < MAX_ID && v.b.nextId < MAX_ID
    ensures var v := WorldRun(moves);
            var v' := WorldRun(moves + [AtA(Connect)] + [AtB(Deliver(w, true))] + [AtA(Deliver(w, true))]);
            && v'.ab == [] && v'.ba == [] && Linked(v', v.a.nextId, v.b.nextId)
            && View(v', v.a.nextId, v.b.nextId) == Duplex(Fresh, Fresh, [], [])
  {
    hide WorldOk, Streams;
    var v := WorldRun(moves);
    var v1, v2 := StepA(v, Connect), Flip(StepA(Flip(StepA(v, Connect)), Deliver(w, true)));
    WorldRunSnoc(moves, AtA(Connect));
    WorldRunSnoc(moves + [AtA(Connect)], AtB(Deliver(w, true)));
    WorldRunSnoc(moves + [AtA(Connect)] + [AtB(Deliver(w, true))], AtA(Deliver(w, true)));
    WorldRunOk(moves);
    WorldRunOk(moves + [AtA(Connect)]);
    WorldRunOk(moves + [AtA(Connect)] + [AtB(Deliver(w, true))]);
    ConnectOpens(v);
    FlipOk(v1);
    OpenIsAccepted(Flip(v1), w, v.a.nextId);
    OkayBinds(v2, w, true, v.b.nextId, v.a.nextId);
  }

  lemma WorldRunSnoc(moves: seq<WorldMove>, m: WorldMove)
    ensures WorldRun(moves + [m]) == WorldStep(WorldRun(moves), m)
  {
    assert (moves + [m])[..|moves|] == moves;
  }
}
