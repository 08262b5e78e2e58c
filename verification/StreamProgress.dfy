/** How a stream goes on and how it ends: it never gets stuck, every packet has its cause, and
    after a close it falls silent. */
module StreamProgress {
  import opened Bytes
  import opened StreamProtocol

  // --- no deadlock ---

  /** A step that gets on with what is under way: a packet arrives, or a descriptor takes at
      least one byte, and nothing fails. */
  predicate Smooth(d: Duplex, ev: Event)
  {
    && Enabled(d, ev)
    && ((ev.Writable? && ev.w.n >= 1 && !ev.w.fails) || (ev.Receive? && !ev.w.fails))
  }

  predicate SmoothMove(d: Duplex, m: Move)
  {
    Smooth(if m.Left? then d else Mirror(d), m.ev)
  }

  /** What is under way in one direction: a byte in flight or queued must be written, an A_WRTE
      must arrive and be answered, and an A_OKAY must arrive. */
  function Way(ps: seq<Packet>, queue: seq<Bytes>): (n: nat)
  {
    |Payload(ps)| + 2 * Wrtes(ps) + Okays(ps) + |Concat(queue)| + |queue|
  }

  function Work(d: Duplex): (n: nat)
  {
    Way(d.lr, d.r.queue) + Way(d.rl, d.l.queue)
  }

  /** The state after a smooth step of the left end: nothing is read or closed, and there is
      less to do. */
  predicate Advanced(d: Duplex, d': Duplex)
  {
    && Live(d'.l) && Live(d'.r) && d'.l.read == d.l.read && d'.r.read == d.r.read
    && Work(d') < Work(d)
  }

  lemma OkaySent(ps: seq<Packet>)
    ensures Wrtes(ps + [Okay]) == Wrtes(ps) && Okays(ps + [Okay]) == Okays(ps) + 1 && Payload(ps + [Okay]) == Payload(ps)
  {
    Counts(ps, Okay);
    PayloadSnoc(ps, Okay);
  }

  lemma SmoothWritable(d: Duplex, w: Writes)
    requires Inv(d) && Live(d.l) && Live(d.r) && Smooth(d, Writable(w))
    ensures Advanced(d, StepLeft(d, Writable(w)))
  {
    OneQueued(d);
    OkaySent(d.lr);
    assert d.lr + [] == d.lr;
    if w.n < |d.l.queue[0]| {
      ControlPartial(d, w.n);
      assert Concat([d.l.queue[0][w.n..]]) == d.l.queue[0][w.n..] + Concat([]);
    }
  }

  lemma SmoothReceive(d: Duplex, w: Writes)
    requires Inv(d) && Live(d.l) && Live(d.r) && Smooth(d, Receive(w))
    ensures Advanced(d, StepLeft(d, Receive(w)))
  {
    OkaySent(d.lr);
    assert d.lr + [] == d.lr;
    assert Payload(d.rl) == Load(d.rl[0]) + Payload(d.rl[1..]);
    if d.rl[0].Wrte? && w.n < |d.rl[0].data| {
      var rest := d.rl[0].data[w.n..];
      assert Concat([rest]) == rest + Concat([]);
    }
  }

  lemma SmoothStep(d: Duplex, m: Move)
    requires Inv(d) && Live(d.l) && Live(d.r) && SmoothMove(d, m)
    ensures Inv(Step(d, m)) && Advanced(d, Step(d, m))
  {
    hide Inv, StepLeft, Work;
    StepInv(d, m);
    MirrorInv(d);
    var e := if m.Left? then d else Mirror(d);
    if m.ev.Writable? { SmoothWritable(e, m.ev.w); } else { SmoothReceive(e, m.ev.w); }
    MirrorWork(d);
    MirrorWork(StepLeft(e, m.ev));
  }

  lemma MirrorWork(d: Duplex)
    ensures Work(Mirror(d)) == Work(d)
  {
  }

  /** Everything sent has been written, and both ends may send again. */
  predicate Settled(d: Duplex)
  {
    && d.lr == [] && d.rl == [] && d.l.queue == [] && d.r.queue == []
    && d.l.phase == Open && d.r.phase == Open && d.l.readOn && d.r.readOn
    && d.r.written == d.l.read && d.l.written == d.r.read
  }

  /** A packet to handle or bytes to write let the left end go on. */
  lemma BusyGoesOn(d: Duplex)
    requires Inv(d) && Live(d.l)
    ensures d.rl != [] ==> SmoothMove(d, Left(Receive(Writes(0, false))))
    ensures d.l.queue != [] ==> SmoothMove(d, Left(Writable(Writes(1, false))))
  {
  }

  lemma NothingLeft(d: Duplex)
    requires Inv(d) && Live(d.l) && Live(d.r)
    requires d.lr == [] && d.rl == [] && d.l.queue == [] && d.r.queue == []
    ensures Settled(d)
  {
  }

  /** As long as the stream has not settled there is a smooth step. */
  lemma StuckIsSettled(d: Duplex)
    requires Inv(d) && Live(d.l) && Live(d.r)
    ensures Settled(d) || exists m :: SmoothMove(d, m)
  {
    hide Inv, Smooth, SmoothMove;
    MirrorInv(d);
    BusyGoesOn(d);
    BusyGoesOn(Mirror(d));
    MirrorSmooth(d, Receive(Writes(0, false)));
    MirrorSmooth(d, Writable(Writes(1, false)));
    if d.lr == [] && d.rl == [] && d.l.queue == [] && d.r.queue == [] { NothingLeft(d); }
  }

  lemma MirrorSmooth(d: Duplex, ev: Event)
    ensures SmoothMove(Mirror(d), Left(ev)) == SmoothMove(d, Right(ev))
  {
  }

  ghost predicate AllSmooth(d: Duplex, moves: seq<Move>)
  {
    forall k :: 0 <= k < |moves| ==> SmoothMove(Run(d, moves[..k]), moves[k])
  }

  /** Every schedule delivers: with no new reads and no failures, however the descriptors
      divide the bytes, there are no more steps than there is work, nothing is lost on the
      way, and only when all that was read is written, and both ends may send again, is there
      no step left. */
  lemma {:induction false} EveryScheduleSettles(d: Duplex, moves: seq<Move>)
    requires Inv(d) && Live(d.l) && Live(d.r) && AllSmooth(d, moves)
    ensures var s := Run(d, moves);
            && Inv(s) && Live(s.l) && Live(s.r) && s.l.read == d.l.read && s.r.read == d.r.read
            && |moves| + Work(s) <= Work(d)
            && (Settled(s) || exists m :: SmoothMove(s, m))
    decreases |moves|
  {
    hide Inv, SmoothMove, Settled, Step, Work;
    if moves != [] {
      var front, m := moves[..|moves| - 1], moves[|moves| - 1];
      assert forall k :: 0 <= k < |front| ==> front[..k] == moves[..k];
      EveryScheduleSettles(d, front);
      assert SmoothMove(Run(d, moves[..|front|]), moves[|front|]);
      SmoothStep(Run(d, front), m);
    }
    StuckIsSettled(Run(d, moves));
  }

  lemma {:induction false} RunCons(d: Duplex, m: Move, moves: seq<Move>)
    ensures Run(d, [m] + moves) == Run(Step(d, m), moves)
    decreases |moves|
  {
    var all := [m] + moves;
    if moves == [] {
      assert all[..0] == [];
    } else {
      RunCons(d, m, moves[..|moves| - 1]);
      assert all[..|all| - 1] == [m] + moves[..|moves| - 1];
    }
  }

  /** These moves deliver what is under way and read nothing more. */
  predicate Settles(d: Duplex, moves: seq<Move>)
  {
    var s := Run(d, moves);
    Settled(s) && s.l.read == d.l.read && s.r.read == d.r.read
  }

  /** So a schedule that settles the stream is found by taking any smooth step. */
  lemma {:induction false} CanSettle(d: Duplex) returns (moves: seq<Move>)
    requires Inv(d) && Live(d.l) && Live(d.r)
    ensures Settles(d, moves)
    decreases Work(d)
  {
    hide Inv, Work, SmoothMove, Step, Settled;
    StuckIsSettled(d);
    if Settled(d) {
      moves := [];
    } else {
      var m :| SmoothMove(d, m);
      SmoothStep(d, m);
      var rest := CanSettle(Step(d, m));
      RunCons(d, m, rest);
      moves := [m] + rest;
    }
  }

  /** No deadlock: at any point of a run at which both ends are live, the stream can settle, and
      every schedule goes on until it has, within as many steps as there is work. */
  lemma NoDeadlock(d: Duplex, moves: seq<Move>, more: seq<Move>)
    requires Accepted(d) && Live(Run(d, moves).l) && Live(Run(d, moves).r) && AllSmooth(Run(d, moves), more)
    ensures var s, s' := Run(d, moves), Run(Run(d, moves), more);
            && s'.l.read == s.l.read && s'.r.read == s.r.read && |more| + Work(s') <= Work(s)
            && (Settled(s') || exists m :: SmoothMove(s', m))
            && exists rest :: Settles(s', rest)
  {
    AcceptedInv(d);
    RunInv(d, moves);
    EveryScheduleSettles(Run(d, moves), more);
    var rest := CanSettle(Run(Run(d, moves), more));
  }

  // --- histories ---

  /** All the packets the left end sends, and all it receives, in a run. */
  function Sent(d: Duplex, moves: seq<Move>): (ps: seq<Packet>)
    decreases |moves|
  {
    if moves == [] then []
    else
      var front, m := moves[..|moves| - 1], moves[|moves| - 1];
      var s := Run(d, front);
      Sent(d, front) + (if m.Left? && Enabled(s, m.ev) then Act(s, m.ev).1 else [])
  }

  function Received(d: Duplex, moves: seq<Move>): (ps: seq<Packet>)
    decreases |moves|
  {
    if moves == [] then []
    else
      var front, m := moves[..|moves| - 1], moves[|moves| - 1];
      var s := Run(d, front);
      Received(d, front) + (if m.Left? && m.ev.Receive? && s.rl != [] then [s.rl[0]] else [])
  }

  function Clses(ps: seq<Packet>): (n: nat)
  {
    if ps == [] then 0 else (if ps[0].Clse? then 1 else 0) + Clses(ps[1..])
  }

  lemma {:induction false} ClsesSends(ps: seq<Packet>, sends: seq<Packet>)
    requires |sends| <= 1
    ensures Clses(ps + sends) == Clses(ps) + Clses(sends)
  {
    if ps == [] {
      assert ps + sends == sends;
    } else {
      ClsesSends(ps[1..], sends);
      assert (ps + sends)[1..] == ps[1..] + sends;
    }
  }

  /** What one event of an end does to its read bit and to its count of A_CLSE. */
  lemma ActHistory(d: Duplex, ev: Event)
    requires Enabled(d, ev)
    ensures var (l, sends) := Act(d, ev);
            && |sends| <= 1 && l.clses == d.l.clses + Clses(sends)
            && Wrtes(sends) + (if l.readOn then 1 else 0)
                 <= (if d.l.readOn then 1 else 0) + (if ev.Receive? && d.rl[0].Okay? then 1 else 0)
  {
  }

  /** Each A_WRTE an end sends uses up the go-ahead it started with or an A_OKAY it has
      received since. */
  lemma {:induction false} WriteFollowsReady(d: Duplex, moves: seq<Move>)
    ensures var s := Run(d, moves);
            && Wrtes(Sent(d, moves)) + (if s.l.readOn then 1 else 0)
                 <= Okays(Received(d, moves)) + (if d.l.readOn then 1 else 0)
            && d.l.clses + Clses(Sent(d, moves)) == s.l.clses
    decreases |moves|
  {
    if moves != [] {
      var front, m := moves[..|moves| - 1], moves[|moves| - 1];
      var s := Run(d, front);
      WriteFollowsReady(d, front);
      assert Sent(d, front) + [] == Sent(d, front) && Received(d, front) + [] == Received(d, front);
      if m.Left? && Enabled(s, m.ev) {
        ActHistory(s, m.ev);
        var sends := Act(s, m.ev).1;
        Sends(Sent(d, front), sends);
        ClsesSends(Sent(d, front), sends);
        if m.ev.Receive? {
          Counts(Received(d, front), s.rl[0]);
        }
      }
    }
  }

  /** Over a whole run each end sends at most one A_CLSE. */
  lemma ClosesOnce(d: Duplex, moves: seq<Move>)
    requires Accepted(d) || Accepted(Mirror(d))
    ensures Clses(Sent(d, moves)) <= 1
  {
    AcceptedInv(if Accepted(d) then d else Mirror(d));
    MirrorInv(d);
    RunInv(d, moves);
    WriteFollowsReady(d, moves);
  }

  /** Some packets were taken off the front and none was added. */
  predicate Drained(ps: seq<Packet>, left: seq<Packet>)
  {
    left == ps || (ps != [] && Drained(ps[1..], left))
  }

  lemma {:induction false} DrainedMore(ps: seq<Packet>, left: seq<Packet>)
    requires Drained(ps, left) && left != []
    ensures Drained(ps, left[1..])
  {
    if left != ps { DrainedMore(ps[1..], left); }
  }

  /** Neither end is live, and since state d nothing was sent or read. */
  predicate Quiet(d: Duplex, s: Duplex)
  {
    && !Live(s.l) && !Live(s.r) && s.l.clses == d.l.clses && s.r.clses == d.r.clses
    && Drained(d.lr, s.lr) && Drained(d.rl, s.rl)
    && s.l.read == d.l.read && s.r.read == d.r.read
  }

  /** A write to the descriptor fails with bytes left. */
  predicate WriteFails(d: Duplex, ev: Event)
    requires Enabled(d, ev)
  {
    || (ev.Writable? && ev.w.fails && ev.w.n < |Concat(d.l.queue)|)
    || (ev.Receive? && d.rl[0].Wrte? && d.l.queue == [] && ev.w.fails && ev.w.n < |d.rl[0].data|)
  }

  /** An open end leaves the list exactly on a local close, the loss of its peer, the other's
      A_CLSE, or a failing write. */
  lemma LeavesIff(d: Duplex, ev: Event)
    requires Enabled(d, ev) && d.l.phase == Open
    ensures var closed := ev.Shut? || ev.Vanish? || (ev.Receive? && d.rl[0].Clse?) || WriteFails(d, ev);
            !Live(Act(d, ev).0) <==> closed
  {
  }

  /** Each way of leaving can happen: an open end closes and says so, one whose peer is lost
      closes without, and a late end of file destroys a closing one, queue and all. */
  lemma EndsLeave(d: Duplex)
    ensures d.l.phase == Open ==> var s := StreamProtocol.Step(d, Left(Shut)); !Live(s.l) && s.lr == d.lr + [Clse] && s.rl == d.rl
    ensures Live(d.l) ==> var s := StreamProtocol.Step(d, Left(Vanish)); !Live(s.l) && s.lr == d.lr && s.rl == d.rl
    ensures d.l.phase == Closing ==>
              var s := StreamProtocol.Step(d, Left(Abort));
              s.l.phase == Dead && s.l.queue == [] && s.lr == d.lr && s.rl == d.rl
  {
    assert d.lr + [] == d.lr;
  }

  /** The other end is told: A_CLSE is sent exactly when an open end leaves the list, unless its
      peer was gone first. */
  lemma ClseSentIff(d: Duplex, ev: Event)
    requires Enabled(d, ev)
    ensures var leaves := d.l.phase == Open && !Live(Act(d, ev).0) && !ev.Vanish?;
            && (Clse in Act(d, ev).1 <==> leaves)
            && (leaves ==> Act(d, ev).1 == [Clse])
  {
  }

  /** A_CLSE is answered once: an end that receives it sends its own exactly if it was open, and
      from then on neither end is live. */
  lemma CloseIsAnsweredOnce(d: Duplex, w: Writes)
    requires Inv(d) && d.rl != [] && d.rl[0].Clse?
    ensures var s := StepLeft(d, Receive(w));
            && s.lr == d.lr + (if d.l.phase == Open then [Clse] else [])
            && !Live(s.l) && !Live(s.r)
  {
    LastClse(d);
  }

  /** A socket that is closing or gone sends nothing, and packets do not change it. */
  lemma QuietAct(d: Duplex, ev: Event)
    requires Enabled(d, ev) && !Live(d.l)
    ensures var (l, sends) := Act(d, ev);
            && sends == [] && !Live(l) && l.clses == d.l.clses && l.read == d.l.read
            && (ev.Receive? ==> d.rl != [] && l == d.l)
  {
  }

  /** When neither end is live a step sends nothing, and a packet that arrives changes no
      socket. */
  lemma QuietStep(d: Duplex, m: Move)
    requires !Live(d.l) && !Live(d.r)
    ensures var s := Step(d, m);
            && !Live(s.l) && !Live(s.r) && s.l.clses == d.l.clses && s.r.clses == d.r.clses
            && (s.lr == d.lr || (d.lr != [] && s.lr == d.lr[1..]))
            && (s.rl == d.rl || (d.rl != [] && s.rl == d.rl[1..]))
            && s.l.read == d.l.read && s.r.read == d.r.read
            && (m.ev.Receive? ==> s.l == d.l && s.r == d.r)
  {
    hide Act, Enabled;
    assert d.lr + [] == d.lr && d.rl + [] == d.rl;
    var e := if m.Left? then d else Mirror(d);
    if Enabled(e, m.ev) { QuietAct(e, m.ev); }
  }

  /** Close quiesces: once neither end is live, whatever happens the channels only drain, so
      no packet is sent any more and nothing is read. */
  lemma {:induction false} CloseQuiesces(d: Duplex, moves: seq<Move>)
    requires !Live(d.l) && !Live(d.r)
    ensures Quiet(d, Run(d, moves))
    decreases |moves|
  {
    hide Step, Drained;
    if moves == [] {
      DrainedAll(d.lr);
      DrainedAll(d.rl);
    } else {
      var front := Run(d, moves[..|moves| - 1]);
      CloseQuiesces(d, moves[..|moves| - 1]);
      QuietStep(front, moves[|moves| - 1]);
      if front.lr != [] { DrainedMore(d.lr, front.lr); }
      if front.rl != [] { DrainedMore(d.rl, front.rl); }
    }
  }

  lemma DrainedAll(ps: seq<Packet>)
    ensures Drained(ps, ps)
  {
  }
}
