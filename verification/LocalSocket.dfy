/** A local asocket, as the program holds it: its callbacks, with their loops of adb_read and
    adb_write, do what the one-stream protocol says an end does. */
module LocalSocket {
  import opened Bytes
  import opened StreamProtocol

  /** The result of one adb_write; asked for fewer bytes than n, it takes them all. */
  datatype Try = Took(n: nat) | WouldBlock | Failed

  function Min(a: int, b: int): (m: int)
  {
    if a < b then a else b
  }

  /** The number of bytes of these packets that successive calls take, and whether it ends in
      an error; after the last call listed the descriptor would block. */
  function Spent(packets: seq<Bytes>, tries: seq<Try>): (w: Writes)
    ensures w.n <= |Concat(packets)|
    decreases |tries|
  {
    if packets == [] || tries == [] || tries[0] == WouldBlock then Writes(0, false)
    else if tries[0] == Failed || tries[0].n == 0 then Writes(0, true)
    else
      var k := Min(tries[0].n, |packets[0]|);
      var left := After(packets, k);
      var w := Spent(left, tries[1..]);
      AfterConcat(packets, k);
      Writes(k + w.n, w.fails)
  }

  predicate Full(packets: seq<Bytes>)
  {
    forall i :: 0 <= i < |packets| ==> packets[i] != []
  }

  /** The queue when k bytes of its first packet are written. */
  function After(packets: seq<Bytes>, k: nat): (left: seq<Bytes>)
    requires packets != [] && k <= |packets[0]|
  {
    if k == |packets[0]| then packets[1..] else [packets[0][k..]] + packets[1..]
  }

  lemma AfterConcat(packets: seq<Bytes>, k: nat)
    requires packets != [] && k <= |packets[0]|
    ensures Concat(After(packets, k)) == Concat(packets)[k..]
    ensures Full(packets) ==> Full(After(packets, k))
    ensures Full(packets) ==> After(packets, k) == DropFront(packets, k)
  {
    var rest := packets[1..];
    if k < |packets[0]| {
      assert ([packets[0][k..]] + rest)[1..] == rest;
    } else if rest != [] {
      assert [rest[0][0..]] + rest[1..] == rest;
    }
  }

  lemma {:induction false} DropFrontTwice(packets: seq<Bytes>, m: nat, k: nat)
    ensures DropFront(DropFront(packets, m), k) == DropFront(packets, m + k)
  {
    if packets != [] {
      if m >= |packets[0]| {
        DropFrontTwice(packets[1..], m - |packets[0]|, k);
      } else {
        var left := [packets[0][m..]] + packets[1..];
        assert left[1..] == packets[1..];
        if k < |left[0]| {
          assert packets[0][m..][k..] == packets[0][m + k..];
        }
      }
    }
  }

  class Asocket {
    var phase: Phase
    var readOn: bool
    var queue: seq<Bytes>
    var read: Bytes
    var written: Bytes
    var clses: nat
    var cause: Cause
    var lost: bool
    var sent: seq<Packet>

    ghost function State(): (e: End)
      reads this
    {
      End(phase, readOn, queue, read, written, clses, cause, lost)
    }

    /** The state and the packets sent are those of res. */
    ghost predicate Became(res: (End, seq<Packet>), before: seq<Packet>)
      reads this
    {
      State() == res.0 && sent == before + res.1
    }

    constructor (phase: Phase, readOn: bool)
      ensures State() == Fresh.(phase := phase, readOn := readOn) && sent == []
    {
      this.phase, this.readOn, queue, read, written := phase, readOn, [], [], [];
      clses, cause, lost, sent := 0, Alive, false, [];
    }

    /** local_socket_close, for a socket that is not closing. */
    method CloseLive(peer: bool, why: Cause)
      modifies this
      ensures Became(Close(old(State()), peer, why), old(sent))
    {
      if phase == Open && peer {
        sent := sent + [Clse];
        clses := clses + 1;
      } else {
        assert sent == sent + [];
      }
      phase := if queue == [] then Dead else Closing;
      readOn, cause := false, why;
    }

    /** local_socket_close, for a socket that is closing. */
    method DestroyClosing()
      modifies this
      ensures State() == Destroy(old(State())) && sent == old(sent)
    {
      lost := lost || queue != [];
      phase, queue := Dead, [];
    }

    /** The write loop over the packets of the queue. */
    method WriteQueue(tries: seq<Try>) returns (fails: bool)
      requires Full(queue)
      modifies this`queue, this`written
      ensures var w := Spent(old(queue), tries);
              && queue == DropFront(old(queue), w.n) && written == old(written) + Concat(old(queue))[..w.n]
              && (queue == [] <==> w.n == |Concat(old(queue))|) && Full(queue)
              && fails == w.fails
    {
      hide Concat, DropFront, After, Full;
      ghost var all := Concat(queue);
      ghost var done := 0;
      var left := tries;
      fails := false;
      NothingDropped(queue);
      assert written == written + all[..0];
      while queue != [] && left != [] && left[0] != WouldBlock
        invariant 0 <= done <= |all| && Full(queue) && !fails
        invariant queue == DropFront(old(queue), done) && Concat(queue) == all[done..]
        invariant written == old(written) + all[..done]
        invariant Spent(old(queue), tries) == Writes(done + Spent(queue, left).n, Spent(queue, left).fails)
        decreases |left|
      {
        if left[0] == Failed || left[0].n == 0 {
          fails := true;
          break;
        }
        var k := Min(left[0].n, |queue[0]|);
        AfterConcat(queue, k);
        DropFrontTwice(old(queue), done, k);
        TakeMore(all, done, k, queue);
        written := written + queue[0][..k];
        queue := After(queue, k);
        left := left[1..];
        done := done + k;
      }
      EmptyIffNone(queue);
    }

    /** local_socket_enqueue, and send_ready when it returned 0. */
    method Enqueue(data: Bytes, tries: seq<Try>)
      requires phase == Open && data != [] && Full(queue)
      modifies this
      ensures Became(StreamProtocol.Enqueue(old(State()), data, Spent([data], tries)), old(sent))
    {
      if queue != [] {
        queue := queue + [data];
        assert sent == sent + [];
        return;
      }
      OnePacket(data);
      queue := [data];
      var fails := WriteQueue(tries);
      if queue == [] {
        assert data[..|data|] == data;
        sent := sent + [Okay];
      } else if fails {
        queue := [];
        CloseLive(true, ByLocal);
      } else {
        assert sent == sent + [];
      }
    }

    /** local_socket_event_func, FDE_WRITE. */
    method Writable(tries: seq<Try>)
      requires (phase == Open || phase == Closing) && queue != [] && Full(queue)
      modifies this
      ensures Became(Drain(old(State()), Spent(old(queue), tries)), old(sent))
    {
      ghost var all := Concat(queue);
      var fails := WriteQueue(tries);
      assert all[..|all|] == all;
      assert sent == sent + [];
      if queue == [] {
        if phase == Closing {
          phase := Dead;
        } else {
          sent := sent + [Okay];
        }
      } else if fails {
        if phase == Closing {
          DestroyClosing();
        } else {
          CloseLive(true, ByLocal);
        }
      }
    }

    /** local_socket_event_func, FDE_READ: everything there is, up to a full packet, goes out
        as one A_WRTE; end of file closes the socket, unless a full packet came first.  On a
        closing socket what is read is dropped, and end of file destroys it. */
    method Readable(input: Bytes, ends: bool, picks: seq<nat>)
      requires (phase == Open && readOn) || phase == Closing
      modifies this
      ensures var data := input[..Min(|input|, MAX_PAYLOAD)];
              var eof := ends && |input| < MAX_PAYLOAD;
              Became(AfterRead(old(State()), data, eof), old(sent))
    {
      var data, eof := [], false;
      var turn := 0;
      while |data| < MAX_PAYLOAD
        invariant |data| <= Min(|input|, MAX_PAYLOAD) && data == input[..|data|]
        invariant eof ==> ends && |input| < MAX_PAYLOAD && |data| == |input|
        decreases MAX_PAYLOAD - |data|
      {
        var have := |input| - |data|;
        if have == 0 {
          eof := ends;
          break;
        }
        var pick := if turn < |picks| && picks[turn] > 0 then picks[turn] else have;
        var n := Min(Min(pick, have), MAX_PAYLOAD - |data|);
        data := input[..|data| + n];
        turn := turn + 1;
      }
      assert sent == sent + [];
      var closing := phase == Closing;
      if data != [] && !closing {
        sent := sent + [Wrte(data)];
        read, readOn := read + data, false;
      }
      if eof {
        if closing { DestroyClosing(); } else { CloseLive(true, ByLocal); }
      }
    }
  }

  /** What a read event does to an end. */
  function AfterRead(e: End, data: Bytes, eof: bool): (res: (End, seq<Packet>))
  {
    if e.phase == Closing then (if eof then Destroy(e) else e, [])
    else
      var (e1, s1) := if data == [] then (e, []) else (e.(readOn := false, read := e.read + data), [Wrte(data)]);
      if eof then
        var (e2, s2) := Close(e1, true, ByLocal);
        (e2, s1 + s2)
      else (e1, s1)
  }

  lemma ShortRuns(d: Duplex, m: Move, m': Move)
    ensures Run(d, []) == d && Run(d, [m]) == Step(d, m) && Run(d, [m, m']) == Step(Step(d, m), m')
  {
    assert [m][..0] == [] && [m, m'][..1] == [m];
  }

  /** It is at most two steps of the stream: data, then end of file. */
  function ReadMoves(e: End, data: Bytes, eof: bool): (moves: seq<Move>)
    ensures |moves| <= 2
  {
    var end := Left(if e.phase == Closing then Abort else Shut);
    var more := Left(Event.Readable(data));
    if e.phase == Closing || data == [] then (if eof then [end] else [])
    else if eof then [more, end] else [more]
  }

  lemma ReadIsSteps(d: Duplex, data: Bytes, eof: bool)
    requires (d.l.phase == Open && d.l.readOn) || d.l.phase == Closing
    requires |data| <= MAX_PAYLOAD
    ensures var (l, sends) := AfterRead(d.l, data, eof);
            Run(d, ReadMoves(d.l, data, eof)) == d.(l := l, lr := d.lr + sends)
  {
    hide Run;
    var end := Left(if d.l.phase == Closing then Abort else Shut);
    ShortRuns(d, Left(Event.Readable(data)), end);
    ShortRuns(d, end, end);
    assert d.lr + [] == d.lr && (d.lr + [Wrte(data)]) + [Clse] == d.lr + ([Wrte(data)] + [Clse]);
  }

  lemma NothingDropped(packets: seq<Bytes>)
    requires Full(packets)
    ensures DropFront(packets, 0) == packets && Concat(packets)[0..] == Concat(packets)
  {
    if packets != [] {
      assert [packets[0][0..]] + packets[1..] == packets;
    }
  }

  /** Only the empty queue holds no bytes. */
  lemma EmptyIffNone(packets: seq<Bytes>)
    requires Full(packets)
    ensures packets == [] <==> |Concat(packets)| == 0
  {
  }

  lemma TakeMore(all: Bytes, done: nat, k: nat, packets: seq<Bytes>)
    requires done <= |all| && Concat(packets) == all[done..] && packets != [] && k <= |packets[0]|
    ensures done + k <= |all| && all[..done] + packets[0][..k] == all[..done + k] && all[done..][k..] == all[done + k..]
  {
    assert packets[0][..k] == Concat(packets)[..k];
  }

  lemma OnePacket(data: Bytes)
    ensures Concat([data]) == data
    ensures forall n :: 0 <= n < |data| ==> DropFront([data], n) == [data[n..]]
  {
    assert Concat([data]) == data + Concat([]);
  }
}
