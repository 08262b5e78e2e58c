/** One stream of the multiplexed protocol: two local sockets, each bound to a file
    descriptor, joined by the two directions of a packet channel.  The end called `l`
    sent A_OPEN; the end called `r` accepted it.  The steps are the callbacks of the
    event loop and the arrival of packets; file descriptors are byte strings that
    accept or refuse bytes as they like. */
module StreamProtocol {
  import opened Bytes

  const MAX_PAYLOAD := 4096

  /** The stream's packets; ids are in module Mux. */
  datatype Packet = Okay | Wrte(data: Bytes) | Clse

  /** Waiting: listed, A_OPEN sent, no peer yet.  Open: listed, with a peer.
      Closing: on the closing list, with packets still to write.  Dead: freed. */
  datatype Phase = Waiting | Open | Closing | Dead

  /** Why a socket left the list. */
  datatype Cause = Alive | ByPeer | ByLocal

  /** A local socket.  `readOn` is its FDE_READ bit and `queue` its unwritten packets.
      `read` and `written` are all the bytes taken from and given to its descriptor,
      `clses` the number of A_CLSE it caused, and `lost` is set when packets that were
      queued are thrown away. */
  datatype End = End(phase: Phase, readOn: bool, queue: seq<Bytes>,
                     read: Bytes, written: Bytes, clses: nat, cause: Cause, lost: bool)

  datatype Duplex = Duplex(l: End, r: End, lr: seq<Packet>, rl: seq<Packet>)

  /** How a loop of adb_write calls ends: it takes up to `n` bytes and then, if bytes are
      left, either would block or fails. */
  datatype Writes = Writes(n: nat, fails: bool)

  datatype Event =
    | Readable(data: Bytes)   // local_socket_event_func, FDE_READ, with data
    | Writable(w: Writes)     // local_socket_event_func, FDE_WRITE
    | Receive(w: Writes)      // handle_packet on the next packet
    | Shut                    // s->close(s) for a local reason: end of file, error
    | Vanish                  // the remote socket was disconnected first: no A_CLSE
    | Abort                   // a late FDE_READ finds end of file on a closing socket

  predicate Live(e: End)
  {
    e.phase == Waiting || e.phase == Open
  }

  // --- the operations of a local socket; each returns the packets it sends ---

  /** local_socket_close on a listed socket; `peer` says whether its peer was still set. */
  function Close(e: End, peer: bool, cause: Cause): (res: (End, seq<Packet>))
  {
    var sends := if e.phase == Open && peer then [Clse] else [];
    (e.(phase := if e.queue == [] then Dead else Closing, readOn := false,
        clses := e.clses + |sends|, cause := cause), sends)
  }

  /** local_socket_close on a socket that is already closing: destroyed, queue discarded. */
  function Destroy(e: End): (res: End)
  {
    e.(phase := Dead, queue := [], lost := e.lost || e.queue != [])
  }

  /** A_WRTE: local_socket_enqueue, and send_ready when it returned 0. */
  function Enqueue(e: End, data: Bytes, w: Writes): (res: (End, seq<Packet>))
  {
    if e.queue != [] then
      (e.(queue := e.queue + [data]), [])
    else if w.n >= |data| then
      (e.(written := e.written + data), [Okay])
    else if w.fails then
      Close(e.(written := e.written + data[..w.n]), true, ByLocal)
    else
      (e.(queue := [data[w.n..]], written := e.written + data[..w.n]), [])
  }

  /** local_socket_event_func, FDE_WRITE branch. */
  function Drain(e: End, w: Writes): (res: (End, seq<Packet>))
  {
    var all := Concat(e.queue);
    if w.n >= |all| then
      var e' := e.(queue := [], written := e.written + all);
      if e.phase == Closing then (e'.(phase := Dead), []) else (e', [Okay])
    else
      var e' := e.(queue := DropFront(e.queue, w.n), written := e.written + all[..w.n]);
      if !w.fails then (e', [])
      else if e.phase == Closing then (Destroy(e'), [])
      else Close(e', true, ByLocal)
  }

  /** handle_packet for one packet of this stream. */
  function Handle(e: End, p: Packet, w: Writes): (res: (End, seq<Packet>))
  {
    match p
    case Okay => if Live(e) then (e.(phase := Open, readOn := true), []) else (e, [])
    case Wrte(data) => if e.phase == Open then Enqueue(e, data, w) else (e, [])
    case Clse => if e.phase == Open then Close(e, true, ByPeer) else (e, [])
  }

  // --- the steps of a stream; a step of the right end is a step of the mirror image ---

  predicate Enabled(d: Duplex, ev: Event)
  {
    match ev
    case Readable(data) => d.l.phase == Open && d.l.readOn && 0 < |data| <= MAX_PAYLOAD
    case Writable(_) => (d.l.phase == Open || d.l.phase == Closing) && d.l.queue != []
    case Receive(_) => d.rl != []
    case Shut => d.l.phase == Open
    case Vanish => Live(d.l)
    case Abort => d.l.phase == Closing
  }

  function Act(d: Duplex, ev: Event): (res: (End, seq<Packet>))
    requires Enabled(d, ev)
  {
    match ev
    case Readable(data) => (d.l.(readOn := false, read := d.l.read + data), [Wrte(data)])
    case Writable(w) => Drain(d.l, w)
    case Receive(w) => Handle(d.l, d.rl[0], w)
    case Shut => Close(d.l, true, ByLocal)
    case Vanish => Close(d.l, false, ByLocal)
    case Abort => (Destroy(d.l), [])
  }

  function StepLeft(d: Duplex, ev: Event): (d': Duplex)
    requires Enabled(d, ev)
  {
    var (l, sends) := Act(d, ev);
    Duplex(l, d.r, d.lr + sends, if ev.Receive? then d.rl[1..] else d.rl)
  }

  function Mirror(d: Duplex): (m: Duplex)
  {
    Duplex(d.r, d.l, d.rl, d.lr)
  }

  datatype Move = Left(ev: Event) | Right(ev: Event)

  /** A move that is not enabled does nothing. */
  function Step(d: Duplex, m: Move): (d': Duplex)
  {
    match m
    case Left(ev) => if Enabled(d, ev) then StepLeft(d, ev) else d
    case Right(ev) => if Enabled(Mirror(d), ev) then Mirror(StepLeft(Mirror(d), ev)) else d
  }

  function Run(d: Duplex, moves: seq<Move>): (d': Duplex)
    decreases |moves|
  {
    if moves == [] then d else Step(Run(d, moves[..|moves| - 1]), moves[|moves| - 1])
  }

  const Fresh := End(Open, true, [], [], [], 0, Alive, false)

  /** The stream just after A_OPEN was accepted: the accepting socket reads its
      descriptor and its A_OKAY is on the way.  The opener waits, or has gone. */
  predicate Accepted(d: Duplex)
  {
    && d.r == Fresh
    && d.lr == [] && d.rl == [Okay]
    && (d.l == Fresh.(phase := Waiting, readOn := false)
        || d.l == Fresh.(phase := Dead, readOn := false, cause := ByLocal))
  }

  // --- what every run keeps ---

  function Wrtes(ps: seq<Packet>): (n: nat)
  {
    if ps == [] then 0 else (if ps[0].Wrte? then 1 else 0) + Wrtes(ps[1..])
  }

  function Okays(ps: seq<Packet>): (n: nat)
  {
    if ps == [] then 0 else (if ps[0].Okay? then 1 else 0) + Okays(ps[1..])
  }

  /** The payload carried by a packet, and by a list of packets. */
  function Load(p: Packet): (bs: Bytes)
  {
    if p.Wrte? then p.data else []
  }

  function Payload(ps: seq<Packet>): (bs: Bytes)
  {
    if ps == [] then [] else Load(ps[0]) + Payload(ps[1..])
  }

  /** The permissions to send one A_WRTE from d.l to d.r, wherever they are: with the
      sender, used up by a packet in flight or in the receiver's queue, or on the way back. */
  function Credits(d: Duplex): (n: nat)
  {
    (if d.l.readOn then 1 else 0) + Wrtes(d.lr) + |d.r.queue| + Okays(d.rl)
  }

  predicate EndOk(e: End)
  {
    && (e.readOn ==> e.phase == Open)
    && (e.queue != [] ==> e.phase == Open || e.phase == Closing)
    && (e.phase == Closing ==> e.queue != [])
    && (forall i :: 0 <= i < |e.queue| ==> e.queue[i] != [])
    && (Live(e) <==> e.cause == Alive)
    && (Live(e) ==> !e.lost)
    && e.clses <= (if Live(e) then 0 else 1)
    && (e.lost ==> e.phase == Dead)
  }

  /** A_CLSE is the last packet an end sends on the stream. */
  predicate ChannelOk(ps: seq<Packet>, sender: End)
  {
    && (forall i :: 0 <= i < |ps| && ps[i].Clse? ==> i == |ps| - 1 && sender.clses == 1)
    && (forall i :: 0 <= i < |ps| && ps[i].Wrte? ==> ps[i].data != [])
  }

  /** A waiting opener hears A_OKAY before anything else. */
  predicate WaitOk(d: Duplex)
  {
    d.l.phase == Waiting ==> d.rl != [] && d.rl[0] == Okay
  }

  /** The life cycle, and at most one credit. */
  predicate SafeOk(d: Duplex)
  {
    EndOk(d.l) && ChannelOk(d.lr, d.l) && WaitOk(d) && Credits(d) <= 1
  }

  predicate Safe(d: Duplex)
  {
    SafeOk(d) && SafeOk(Mirror(d))
  }

  /** While both ends are live, exactly one credit in each direction. */
  predicate Control(d: Duplex)
  {
    Safe(d) && (Live(d.l) && Live(d.r) ==> Credits(d) == 1 && Credits(Mirror(d)) == 1)
  }

  /** The bytes an end has accepted: written to its descriptor or queued for it. */
  function Arrived(e: End): (bs: Bytes)
  {
    e.written + Concat(e.queue)
  }

  /** The bytes that go from d.l to d.r. */
  predicate StreamOk(d: Duplex)
  {
    && (Live(d.r) ==> d.l.read == Arrived(d.r) + Payload(d.lr))
    && Arrived(d.r) <= d.l.read
    && (d.r.cause == ByPeer ==>
          && !Live(d.l)
          && (if d.r.lost then |d.r.written| < |d.l.read| else d.l.read == Arrived(d.r)))
  }

  predicate Inv(d: Duplex)
  {
    Control(d) && StreamOk(d) && StreamOk(Mirror(d))
  }

  // --- counting ---

  lemma {:induction false} Counts(ps: seq<Packet>, p: Packet)
    ensures Wrtes(ps + [p]) == Wrtes(ps) + (if p.Wrte? then 1 else 0)
    ensures Okays(ps + [p]) == Okays(ps) + (if p.Okay? then 1 else 0)
  {
    if ps == [] {
      assert [] + [p] == [p];
    } else {
      Counts(ps[1..], p);
      assert (ps + [p])[1..] == ps[1..] + [p];
    }
  }

  lemma {:induction false} PayloadSnoc(ps: seq<Packet>, p: Packet)
    ensures Payload(ps + [p]) == Payload(ps) + Load(p)
  {
    hide Load;
    if ps == [] {
      assert [] + [p] == [p];
      assert Payload([p]) == Load(p) + Payload([]);
    } else {
      PayloadSnoc(ps[1..], p);
      assert (ps + [p])[1..] == ps[1..] + [p];
      assert Load(ps[0]) + (Payload(ps[1..]) + Load(p)) == (Load(ps[0]) + Payload(ps[1..])) + Load(p);
    }
  }

  lemma Sends(ps: seq<Packet>, sends: seq<Packet>)
    requires |sends| <= 1
    ensures Wrtes(ps + sends) == Wrtes(ps) + Wrtes(sends)
    ensures Okays(ps + sends) == Okays(ps) + Okays(sends)
    ensures Payload(ps + sends) == Payload(ps) + Payload(sends)
  {
    if sends == [] {
      assert ps + sends == ps;
    } else {
      Counts(ps, sends[0]);
      PayloadSnoc(ps, sends[0]);
      PayloadSnoc([], sends[0]);
      assert sends == [] + [sends[0]] == [sends[0]];
    }
  }

  lemma LastClse(d: Duplex)
    requires Control(d) && d.rl != [] && d.rl[0].Clse?
    ensures d.rl == [Clse] && !Live(d.r)
  {
  }

  // --- preservation of flow control and life cycle ---

  /** A socket that leaves the list keeps its queue, and its descriptor is not read again. */
  lemma ControlLeave(d: Duplex, l: End)
    requires Safe(d) && Live(d.l)
    requires l == d.l.(phase := if d.l.queue == [] then Dead else Closing, readOn := false,
                       clses := l.clses, cause := l.cause)
    requires l.cause != Alive && l.clses <= 1
    ensures Control(d.(l := l))
  {
  }

  lemma ControlGoodbye(d: Duplex)
    requires Control(d) && !Live(d.l) && d.l.clses == 1 && Clse !in d.lr
    ensures Control(d.(lr := d.lr + [Clse]))
  {
    Counts(d.lr, Clse);
  }

  lemma ControlClose(d: Duplex, peer: bool, cause: Cause)
    requires Safe(d) && Live(d.l) && cause != Alive
    requires peer ==> d.l.phase == Open
    ensures var (l, sends) := Close(d.l, peer, cause);
            Control(Duplex(l, d.r, d.lr + sends, d.rl))
  {
    var (l, sends) := Close(d.l, peer, cause);
    assert d.lr + [] == d.lr;
    ControlLeave(d, l);
    if sends != [] {
      ControlGoodbye(d.(l := l));
    }
  }

  lemma ControlReadable(d: Duplex, data: Bytes)
    requires Control(d) && Enabled(d, Readable(data))
    ensures Control(StepLeft(d, Readable(data)))
  {
    Counts(d.lr, Wrte(data));
  }

  /** A queue never holds more than the one packet the credit allows. */
  lemma OneQueued(d: Duplex)
    requires Control(d)
    ensures |d.l.queue| <= 1
    ensures d.l.queue != [] ==> d.l.queue == [d.l.queue[0]] && Concat(d.l.queue) == d.l.queue[0]
  {
  }

  /** Part of the queued packet is written; the rest stays queued. */
  lemma ControlPartial(d: Duplex, n: nat)
    requires Control(d) && d.l.queue != [] && n < |d.l.queue[0]|
    ensures DropFront(d.l.queue, n) == [d.l.queue[0][n..]]
    ensures Control(d.(l := d.l.(queue := [d.l.queue[0][n..]], written := d.l.written + d.l.queue[0][..n])))
  {
  }

  /** All of it is written, and the credit goes back, unless the socket was closing. */
  lemma ControlDrained(d: Duplex)
    requires Control(d) && |d.l.queue| == 1
    ensures var l := d.l.(queue := [], written := d.l.written + d.l.queue[0]);
            && (d.l.phase == Closing ==> Control(d.(l := l.(phase := Dead))))
            && (d.l.phase == Open ==> Control(d.(l := l, lr := d.lr + [Okay])))
  {
    Counts(d.lr, Okay);
  }

  lemma ControlDrain(d: Duplex, w: Writes)
    requires Control(d) && Enabled(d, Writable(w))
    ensures Control(StepLeft(d, Writable(w)))
  {
    OneQueued(d);
    var q := d.l.queue[0];
    var (l, sends) := Drain(d.l, w);
    assert d.lr + [] == d.lr;
    if w.n >= |q| {
      ControlDrained(d);
    } else {
      ControlPartial(d, w.n);
      var d1 := d.(l := d.l.(queue := [q[w.n..]], written := d.l.written + q[..w.n]));
      if w.fails && d.l.phase == Closing {
        ControlAbort(d1);
      } else if w.fails {
        ControlClose(d1, true, ByLocal);
      }
    }
  }

  lemma ControlAbort(d: Duplex)
    requires Control(d) && Enabled(d, Abort)
    ensures Control(StepLeft(d, Abort))
  {
    assert d.lr + [] == d.lr;
  }

  /** Taking a packet off the channel. */
  lemma SafePop(d: Duplex)
    requires Control(d) && d.rl != [] && d.l.phase != Waiting
    ensures Safe(d.(rl := d.rl[1..]))
    ensures Credits(d.(rl := d.rl[1..])) == Credits(d) - (if d.rl[0].Okay? then 1 else 0)
    ensures Credits(Mirror(d.(rl := d.rl[1..]))) == Credits(Mirror(d)) - (if d.rl[0].Wrte? then 1 else 0)
  {
  }

  lemma ControlOkay(d: Duplex, w: Writes)
    requires Control(d) && Enabled(d, Receive(w)) && d.rl[0] == Okay
    ensures Control(StepLeft(d, Receive(w)))
  {
    assert d.lr + [] == d.lr;
    if d.l.phase != Waiting {
      SafePop(d);
    }
  }

  /** The credit of a packet just taken off the channel goes back as an A_OKAY. */
  lemma ControlAnswer(d: Duplex, l: End)
    requires Safe(d) && d.l.phase == Open && Credits(Mirror(d)) == 0
    requires Live(d.r) ==> Credits(d) == 1
    requires l == d.l.(written := l.written)
    ensures Control(Duplex(l, d.r, d.lr + [Okay], d.rl))
  {
    Sends(d.lr, [Okay]);
  }

  /** Or it stays with the packet in the queue. */
  lemma ControlQueue(d: Duplex, l: End, rest: Bytes)
    requires Safe(d) && d.l.phase == Open && Credits(Mirror(d)) == 0 && rest != []
    requires Live(d.r) ==> Credits(d) == 1
    requires l == d.l.(written := l.written, queue := [rest])
    ensures Control(Duplex(l, d.r, d.lr, d.rl))
  {
  }

  lemma ControlWrte(d: Duplex, w: Writes)
    requires Control(d) && Enabled(d, Receive(w)) && d.rl[0].Wrte?
    ensures Control(StepLeft(d, Receive(w)))
  {
    var data := d.rl[0].data;
    SafePop(d);
    var d1 := d.(rl := d.rl[1..]);
    assert d.lr + [] == d.lr;
    if d.l.phase == Open {
      assert d.l.queue == [];
      var (l, sends) := Enqueue(d.l, data, w);
      if w.n >= |data| {
        ControlAnswer(d1, l);
      } else if w.fails {
        ControlClose(d1.(l := d.l.(written := d.l.written + data[..w.n])), true, ByLocal);
      } else {
        ControlQueue(d1, l, data[w.n..]);
      }
    }
  }

  lemma ControlReceive(d: Duplex, w: Writes)
    requires Control(d) && Enabled(d, Receive(w))
    ensures Control(StepLeft(d, Receive(w)))
  {
    match d.rl[0]
    case Okay => ControlOkay(d, w);
    case Wrte(_) => ControlWrte(d, w);
    case Clse =>
      SafePop(d);
      assert d.lr + [] == d.lr;
      if d.l.phase == Open {
        ControlClose(d.(rl := d.rl[1..]), true, ByPeer);
      }
  }

  // --- preservation of the byte streams ---

  /** An event of d.l that reads nothing sends no payload. */
  lemma ActQuiet(d: Duplex, ev: Event)
    requires Enabled(d, ev) && !ev.Readable?
    ensures var (l, sends) := Act(d, ev);
            l.read == d.l.read && (Live(l) ==> Live(d.l)) && |sends| <= 1 && Payload(sends) == []
  {
  }

  /** So it does not disturb the bytes from d.l to d.r. */
  lemma Outgoing(d: Duplex, ev: Event)
    requires StreamOk(d) && Enabled(d, ev) && !ev.Readable?
    ensures StreamOk(StepLeft(d, ev))
  {
    ActQuiet(d, ev);
    OutgoingSame(d, StepLeft(d, ev), Act(d, ev).1);
  }

  lemma OutgoingSame(d: Duplex, d': Duplex, sends: seq<Packet>)
    requires StreamOk(d) && d'.r == d.r && d'.l.read == d.l.read && (Live(d'.l) ==> Live(d.l))
    requires |sends| <= 1 && Payload(sends) == [] && d'.lr == d.lr + sends
    ensures StreamOk(d')
  {
    Sends(d.lr, sends);
  }

  lemma OutgoingReadable(d: Duplex, data: Bytes)
    requires StreamOk(d) && Enabled(d, Readable(data))
    ensures StreamOk(StepLeft(d, Readable(data)))
  {
    hide Payload, Arrived;
    PayloadSnoc(d.lr, Wrte(data));
    assert Arrived(d.r) + (Payload(d.lr) + data) == (Arrived(d.r) + Payload(d.lr)) + data;
    assert d.l.read <= d.l.read + data;
  }

  /** Writing bytes from the queue to the descriptor moves them but keeps their order. */
  lemma DrainArrived(e: End, n: nat)
    requires n <= |Concat(e.queue)|
    ensures (e.written + Concat(e.queue)[..n]) + Concat(DropFront(e.queue, n)) == Arrived(e)
  {
    DropFrontConcat(e.queue, n);
    assert Concat(e.queue) == Concat(e.queue)[..n] + Concat(e.queue)[n..];
  }

  /** The bytes from d.r to d.l are not disturbed by a change of d.l that keeps what arrived. */
  lemma IncomingSame(d: Duplex, l: End, lr: seq<Packet>)
    requires StreamOk(Mirror(d)) && Arrived(l) == Arrived(d.l)
    requires l.cause == d.l.cause && l.lost == d.l.lost && !d.l.lost
    requires Live(l) ==> Live(d.l)
    ensures StreamOk(Mirror(Duplex(l, d.r, lr, d.rl)))
  {
  }

  lemma IncomingClose(d: Duplex, peer: bool)
    requires StreamOk(Mirror(d))
    ensures var (l, sends) := Close(d.l, peer, ByLocal);
            StreamOk(Mirror(Duplex(l, d.r, d.lr + sends, d.rl)))
  {
  }

  lemma IncomingDestroy(d: Duplex)
    requires StreamOk(Mirror(d)) && d.l.phase == Closing && d.l.queue != [] && d.l.queue[0] != []
    ensures StreamOk(Mirror(d.(l := Destroy(d.l))))
  {
  }

  lemma IncomingDrain(d: Duplex, w: Writes)
    requires Control(d) && StreamOk(Mirror(d)) && Enabled(d, Writable(w))
    ensures StreamOk(Mirror(StepLeft(d, Writable(w))))
  {
    OneQueued(d);
    var q := d.l.queue[0];
    if w.n >= |q| {
      var l := d.l.(queue := [], written := d.l.written + q);
      assert Arrived(l) == Arrived(d.l);
      IncomingSame(d, Drain(d.l, w).0, StepLeft(d, Writable(w)).lr);
    } else {
      DrainArrived(d.l, w.n);
      ControlPartial(d, w.n);
      var l := d.l.(queue := DropFront(d.l.queue, w.n), written := d.l.written + q[..w.n]);
      IncomingSame(d, l, d.lr);
      var d1 := d.(l := l);
      assert d.lr + [] == d.lr;
      if w.fails && d.l.phase == Closing {
        IncomingDestroy(d1);
      } else if w.fails {
        IncomingClose(d1, true);
      }
    }
  }

  lemma IncomingWrte(d: Duplex, w: Writes)
    requires Control(d) && StreamOk(Mirror(d)) && Enabled(d, Receive(w)) && d.rl[0].Wrte?
    ensures StreamOk(Mirror(StepLeft(d, Receive(w))))
  {
    var data := d.rl[0].data;
    assert Payload(d.rl) == data + Payload(d.rl[1..]);
    if d.l.phase == Open {
      assert d.l.queue == [];
      assert Arrived(d.l) == d.l.written;
      assert d.r.read == (d.l.written + data) + Payload(d.rl[1..]);
      if w.n >= |data| {
        assert Arrived(d.l.(written := d.l.written + data)) == d.l.written + data;
      } else {
        IncomingPartial(d, data, w);
      }
    }
  }

  lemma IncomingPartial(d: Duplex, data: Bytes, w: Writes)
    requires d.l.phase == Open && d.l.queue == [] && d.l.cause == Alive && !d.l.lost
    requires d.rl != [] && d.rl[0] == Wrte(data) && w.n < |data|
    requires d.r.read == (d.l.written + data) + Payload(d.rl[1..])
    ensures StreamOk(Mirror(StepLeft(d, Receive(w))))
  {
    var part := d.l.written + data[..w.n];
    assert data == data[..w.n] + data[w.n..];
    assert part + data[w.n..] == d.l.written + data;
    if w.fails {
      assert Arrived(Enqueue(d.l, data, w).0) == part;
    } else {
      assert Concat([data[w.n..]]) == data[w.n..];
      assert Arrived(Enqueue(d.l, data, w).0) == d.l.written + data;
    }
  }

  lemma IncomingReceive(d: Duplex, w: Writes)
    requires Control(d) && StreamOk(Mirror(d)) && Enabled(d, Receive(w))
    ensures StreamOk(Mirror(StepLeft(d, Receive(w))))
  {
    match d.rl[0]
    case Okay =>
      assert Payload(d.rl) == Payload(d.rl[1..]);
    case Wrte(_) => IncomingWrte(d, w);
    case Clse =>
      LastClse(d);
      assert Payload(d.rl) == [] + Payload(d.rl[1..]);
      assert Arrived(Close(d.l, true, ByPeer).0) == Arrived(d.l);
  }

  // --- the theorems ---

  lemma StepLeftInv(d: Duplex, ev: Event)
    requires Inv(d) && Enabled(d, ev)
    ensures Inv(StepLeft(d, ev))
  {
    assert d.lr + [] == d.lr;
    match ev
    case Readable(data) =>
      ControlReadable(d, data);
      OutgoingReadable(d, data);
      IncomingSame(d, StepLeft(d, ev).l, StepLeft(d, ev).lr);
    case Writable(w) =>
      ControlDrain(d, w);
      Outgoing(d, ev);
      IncomingDrain(d, w);
    case Receive(w) =>
      ControlReceive(d, w);
      Outgoing(d, ev);
      IncomingReceive(d, w);
    case Shut =>
      ControlClose(d, true, ByLocal);
      Outgoing(d, ev);
      IncomingClose(d, true);
    case Vanish =>
      ControlClose(d, false, ByLocal);
      Outgoing(d, ev);
      IncomingClose(d, false);
    case Abort =>
      ControlAbort(d);
      Outgoing(d, ev);
      IncomingDestroy(d);
  }

  lemma MirrorInv(d: Duplex)
    ensures Inv(Mirror(d)) == Inv(d)
  {
  }

  lemma StepInv(d: Duplex, m: Move)
    requires Inv(d)
    ensures Inv(Step(d, m))
  {
    match m
    case Left(ev) =>
      if Enabled(d, ev) { StepLeftInv(d, ev); }
    case Right(ev) =>
      if Enabled(Mirror(d), ev) {
        MirrorInv(d);
        StepLeftInv(Mirror(d), ev);
        MirrorInv(StepLeft(Mirror(d), ev));
      }
  }

  lemma AcceptedInv(d: Duplex)
    requires Accepted(d)
    ensures Inv(d)
  {
    var ps := d.rl;
    assert ps == [Okay] && ps[1..] == [];
    assert Okays(ps) == 1 + Okays([]) && Wrtes(ps) == Wrtes([]) && Payload(ps) == [] + Payload([]);
    assert Credits(d) == 1 && Credits(Mirror(d)) == 1;
  }

  lemma {:induction false} RunInv(d: Duplex, moves: seq<Move>)
    requires Inv(d)
    ensures Inv(Run(d, moves))
    decreases |moves|
  {
    if moves != [] {
      RunInv(d, moves[..|moves| - 1]);
      StepInv(Run(d, moves[..|moves| - 1]), moves[|moves| - 1]);
    }
  }

  /** Flow control over whole runs: while both ends are live there is exactly one credit
      in each direction, afterwards at most one, so a second A_WRTE is never in flight or
      queued beside a first. */
  lemma CreditConservation(d: Duplex, moves: seq<Move>)
    requires Accepted(d)
    ensures var s := Run(d, moves);
            && Credits(s) <= 1 && Credits(Mirror(s)) <= 1
            && (Live(s.l) && Live(s.r) ==> Credits(s) == 1 && Credits(Mirror(s)) == 1)
            && Wrtes(s.lr) + |s.r.queue| <= 1 && Wrtes(s.rl) + |s.l.queue| <= 1
  {
    AcceptedInv(d);
    RunInv(d, moves);
  }

  // --- when bytes are lost ---

  /** An event that makes a closing socket go before its queue is written: a late end of
      file, or a write that fails with bytes left. */
  predicate Drops(e: End, ev: Event)
  {
    && e.phase == Closing
    && (ev.Abort? || (ev.Writable? && ev.w.fails && ev.w.n < |Concat(e.queue)|))
  }

  predicate DropsAt(d: Duplex, moves: seq<Move>, left: bool, k: nat)
  {
    && k < |moves| && moves[k].Left? == left
    && Drops(if left then Run(d, moves[..k]).l else Run(d, moves[..k]).r, moves[k].ev)
  }

  /** Such an event happens to one end somewhere in the run. */
  ghost predicate Dropped(d: Duplex, moves: seq<Move>, left: bool)
  {
    exists k: nat :: DropsAt(d, moves, left, k)
  }

  lemma LossStepLeft(d: Duplex, ev: Event)
    requires Inv(d) && Enabled(d, ev)
    ensures StepLeft(d, ev).l.lost <==> d.l.lost || Drops(d.l, ev)
  {
    OneQueued(d);
    if ev.Writable? && ev.w.n < |Concat(d.l.queue)| {
      ControlPartial(d, ev.w.n);
    }
  }

  lemma LossStep(d: Duplex, m: Move)
    requires Inv(d)
    ensures Step(d, m).l.lost <==> d.l.lost || (m.Left? && Drops(d.l, m.ev))
    ensures Step(d, m).r.lost <==> d.r.lost || (m.Right? && Drops(d.r, m.ev))
  {
    MirrorInv(d);
    var e := if m.Left? then d else Mirror(d);
    if Enabled(e, m.ev) { LossStepLeft(e, m.ev); }
  }

  lemma DroppedSnoc(d: Duplex, moves: seq<Move>, left: bool)
    requires moves != []
    ensures var front := moves[..|moves| - 1];
            Dropped(d, moves, left) <==> Dropped(d, front, left) || DropsAt(d, moves, left, |front|)
  {
    var front := moves[..|moves| - 1];
    forall k: nat | k < |front| ensures DropsAt(d, moves, left, k) == DropsAt(d, front, left, k) {
      assert moves[..k] == front[..k];
    }
  }

  /** A socket was destroyed with bytes queued exactly if such an event happened to it. */
  lemma {:induction false} LossRun(d: Duplex, moves: seq<Move>)
    requires Inv(d) && !d.l.lost && !d.r.lost
    ensures Run(d, moves).l.lost <==> Dropped(d, moves, true)
    ensures Run(d, moves).r.lost <==> Dropped(d, moves, false)
    decreases |moves|
  {
    hide Inv, Step, Drops;
    if moves != [] {
      var front := moves[..|moves| - 1];
      LossRun(d, front);
      RunInv(d, front);
      LossStep(Run(d, front), moves[|front|]);
      DroppedSnoc(d, moves, true);
      DroppedSnoc(d, moves, false);
    }
  }

  /** Nothing is lost, repeated or reordered: what an end wrote to its descriptor is a
      prefix of what the other end read, and when an end that was closed by the other's
      A_CLSE is gone it has written everything, exactly if no late end of file and no failing
      write came while it was closing. */
  lemma StreamIntegrity(d: Duplex, moves: seq<Move>)
    requires Accepted(d)
    ensures var s := Run(d, moves);
            && s.r.written <= s.l.read && s.l.written <= s.r.read
            && (s.r.phase == Dead && s.r.cause == ByPeer ==> (s.r.written == s.l.read <==> !Dropped(d, moves, false)))
            && (s.l.phase == Dead && s.l.cause == ByPeer ==> (s.l.written == s.r.read <==> !Dropped(d, moves, true)))
  {
    hide Dropped;
    AcceptedInv(d);
    RunInv(d, moves);
    LossRun(d, moves);
    var s := Run(d, moves);
    assert s.r.written <= Arrived(s.r) && s.l.written <= Arrived(s.l);
  }

  /** The states of a run that loses a byte, the k-th after k moves. */
  ghost function LossyState(k: nat): Duplex
  {
    var l := Fresh.(readOn := false, read := [1, 2]);
    var r := Fresh.(queue := [[2]], written := [1]);
    if k == 0 then Duplex(Fresh.(phase := Waiting, readOn := false), Fresh, [], [Okay])
    else if k == 1 then Duplex(Fresh, Fresh, [], [])
    else if k == 2 then Duplex(l, Fresh, [Wrte([1, 2])], [])
    else if k == 3 then Duplex(l, r, [], [])
    else
      var l' := l.(phase := Dead, clses := 1, cause := ByLocal);
      var r' := r.(phase := Closing, readOn := false, clses := 1, cause := ByPeer);
      if k == 4 then Duplex(l', r, [Clse], [])
      else if k == 5 then Duplex(l', r', [], [Clse])
      else Duplex(l', r'.(phase := Dead, queue := [], lost := true), [], [Clse])
  }

  ghost function LossyMoves(): (ms: seq<Move>)
    ensures |ms| == 6
  {
    var w := Writes(1, false);
    [Left(Receive(w)), Left(Readable([1, 2])), Right(Receive(w)), Left(Shut), Right(Receive(w)), Right(Abort)]
  }

  lemma LossyStep(k: nat)
    requires k < 6
    ensures Step(LossyState(k), LossyMoves()[k]) == LossyState(k + 1)
  {
  }

  lemma {:induction false} LossyRun(k: nat)
    requires k <= 6
    ensures Run(LossyState(0), LossyMoves()[..k]) == LossyState(k)
  {
    if k > 0 {
      assert LossyMoves()[..k][..k - 1] == LossyMoves()[..k - 1];
      LossyRun(k - 1);
      LossyStep(k - 1);
    }
  }

  /** The exception is real: end of file seen late on a closing socket costs the queued byte. */
  lemma ClosingSocketCanLoseBytes()
    ensures exists d, moves :: Accepted(d) &&
              (var s := Run(d, moves);
               s.r.phase == Dead && s.r.cause == ByPeer && s.l.read == [1, 2] && s.r.written == [1])
  {
    LossyRun(6);
    assert LossyMoves()[..6] == LossyMoves();
    assert Accepted(LossyState(0));
  }
}
