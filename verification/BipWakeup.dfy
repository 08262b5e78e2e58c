/** The waiting in bip_buffer_write and bip_buffer_read.  A reader and a writer share a
    lock, two flags and two events; a third thread may close the buffer without the lock.
    The two are symmetric: each moves bytes it has available (bytes held for the reader,
    room for the writer) over to the other, so one description serves both. */
module BipWakeup {

  const SIZE: nat := 4096

  /** Where a thread is.  It holds the lock from Test to Leave. */
  datatype Pc =
    | Idle
    | Enter     // before EnterCriticalSection
    | Test      // while (!can)
    | Check     // lock released; first look at closed
    | Wait      // WaitForSingleObject
    | Recheck   // second look at closed
    | Body      // moves bytes
    | Clear     // nothing left: can = 0
    | Reset     // ResetEvent
    | Exit      // if (!other->can)
    | Raise     // other->can = 1
    | Signal    // SetEvent on the other's event
    | Leave     // LeaveCriticalSection

  /** `avail` is what the thread could move; `can` and `evt` are its flag and event. */
  datatype Party = Party(pc: Pc, avail: nat, can: bool, evt: bool)

  datatype Owner = Free | ByP | ByQ

  /** bip_buffer_close: its next statement. */
  datatype Closer = Open | TestP | SetP | TestQ | SetQ | Done

  datatype State = State(p: Party, q: Party, lock: Owner, closed: bool, closer: Closer)

  predicate Holds(pc: Pc)
  {
    pc.Test? || pc.Body? || pc.Clear? || pc.Reset? || pc.Exit? || pc.Raise? || pc.Signal? || pc.Leave?
  }

  /** p is the reader, of an empty buffer, and q the writer. */
  const Start := State(Party(Idle, 0, false, false), Party(Idle, SIZE, true, true), Free, false, Open)

  predicate CanStep(s: State, n: nat)
  {
    match s.p.pc
    case Enter => s.lock == Free
    case Wait => s.p.evt
    case Body => 0 < n <= s.p.avail
    case _ => true
  }

  /** One step of thread p; n is the number of bytes that Body moves. */
  function StepP(s: State, n: nat): (s': State)
    requires CanStep(s, n)
  {
    var p := s.p;
    match p.pc
    case Idle => s.(p := p.(pc := Enter))
    case Enter => s.(p := p.(pc := Test), lock := ByP)
    case Test => if p.can then s.(p := p.(pc := Body)) else s.(p := p.(pc := Check), lock := Free)
    case Check => s.(p := p.(pc := if s.closed then Idle else Wait))
    case Wait => s.(p := p.(pc := Recheck))
    case Recheck => s.(p := p.(pc := if s.closed then Idle else Enter))
    case Body => s.(p := p.(pc := if p.avail == n then Clear else Exit, avail := p.avail - n),
                    q := s.q.(avail := s.q.avail + n))
    case Clear => s.(p := p.(pc := Reset, can := false))
    case Reset => s.(p := p.(pc := Exit, evt := false))
    case Exit => s.(p := p.(pc := if s.q.can then Leave else Raise))
    case Raise => s.(p := p.(pc := Signal), q := s.q.(can := true))
    case Signal => s.(p := p.(pc := Leave), q := s.q.(evt := true))
    case Leave => s.(p := p.(pc := Idle), lock := Free)
  }

  function Swap(s: State): (s': State)
  {
    s.(p := s.q, q := s.p, lock := match s.lock case Free => Free case ByP => ByQ case ByQ => ByP)
  }

  /** One step of bip_buffer_close. */
  function StepClose(s: State): (s': State)
  {
    match s.closer
    case Open => s.(closed := true, closer := TestP)
    case TestP => s.(closer := if s.p.can then TestQ else SetP)
    case SetP => s.(p := s.p.(evt := true), closer := TestQ)
    case TestQ => s.(closer := if s.q.can then Done else SetQ)
    case SetQ => s.(q := s.q.(evt := true), closer := Done)
    case Done => s
  }

  datatype Turn = P(n: nat) | Q(n: nat) | C

  function StepQ(s: State, n: nat): (s': State)
    requires CanStep(Swap(s), n)
  {
    Swap(StepP(Swap(s), n))
  }

  function Step(s: State, t: Turn): (s': State)
  {
    match t
    case P(n) => if CanStep(s, n) then StepP(s, n) else s
    case Q(n) => if CanStep(Swap(s), n) then StepQ(s, n) else s
    case C => StepClose(s)
  }

  function Run(turns: seq<Turn>): (s: State)
  {
    if turns == [] then Start else Step(Run(turns[..|turns| - 1]), turns[|turns| - 1])
  }

  // --- what every interleaving keeps ---

  /** A thread's flag says whether it has something to move, except between the two halves
      of a change made under the lock. */
  predicate FlagOk(p: Party, q: Party)
  {
    && (p.can ==> p.avail > 0 || p.pc == Clear)
    && (p.avail > 0 ==> p.can || q.pc == Clear || q.pc == Reset || q.pc == Exit || q.pc == Raise)
    && (p.pc == Body ==> p.can)
    && (p.pc == Clear || p.pc == Reset ==> p.avail == 0)
    && (p.pc == Reset ==> !p.can)
    && (q.pc == Signal ==> p.can)
    && (q.pc.Clear? || q.pc.Reset? || q.pc.Exit? || q.pc.Raise? ==> p.avail > 0)
  }

  /** Its event is set when its flag is, but for the other's SetEvent to come; before close
      it is set only then. */
  predicate EventOk(p: Party, q: Party, closed: bool)
  {
    && (p.can ==> p.evt || q.pc == Signal)
    && (!closed && p.evt ==> p.can || p.pc == Reset)
  }

  /** Close has made sure of p: if p waits, its event is set, or will be by q's next step. */
  predicate CloseOk(p: Party, q: Party, past: bool)
  {
    past && p.pc == Wait ==> p.evt || q.pc == Signal
  }

  predicate PartyOk(p: Party, q: Party, closed: bool, past: bool)
  {
    FlagOk(p, q) && EventOk(p, q, closed) && CloseOk(p, q, past)
  }

  predicate PastP(c: Closer)
  {
    c == TestQ || c == SetQ || c == Done
  }

  /** The part of the invariant that does not name the closer's statements: pastP and pastQ
      say whether it has made sure of p and of q. */
  predicate Shared(s: State, pastP: bool, pastQ: bool)
  {
    && s.p.avail + s.q.avail == SIZE
    && Holds(s.p.pc) == (s.lock == ByP) && Holds(s.q.pc) == (s.lock == ByQ)
    && (pastP || pastQ ==> s.closed)
    && PartyOk(s.p, s.q, s.closed, pastP)
    && PartyOk(s.q, s.p, s.closed, pastQ)
  }

  predicate Inv(s: State)
  {
    s.closed == (s.closer != Open) && Shared(s, PastP(s.closer), s.closer == Done)
  }

  lemma StepOwn(s: State, n: nat, pastP: bool, pastQ: bool)
    requires Shared(s, pastP, pastQ) && CanStep(s, n)
    ensures var s' := StepP(s, n); PartyOk(s'.p, s'.q, s'.closed, pastP)
  {
  }

  lemma StepOther(s: State, n: nat, pastP: bool, pastQ: bool)
    requires Shared(s, pastP, pastQ) && CanStep(s, n)
    ensures var s' := StepP(s, n); PartyOk(s'.q, s'.p, s'.closed, pastQ)
  {
  }

  /** A step of p keeps the invariant, wherever the closer is. */
  lemma StepShared(s: State, n: nat, pastP: bool, pastQ: bool)
    requires Shared(s, pastP, pastQ) && CanStep(s, n)
    ensures Shared(StepP(s, n), pastP, pastQ)
  {
    hide FlagOk, EventOk, CloseOk;
    StepOwn(s, n, pastP, pastQ);
    StepOther(s, n, pastP, pastQ);
  }

  lemma StepCloseInv(s: State)
    requires Inv(s)
    ensures Inv(StepClose(s))
  {
  }

  lemma StepInv(s: State, t: Turn)
    requires Inv(s)
    ensures Inv(Step(s, t))
  {
    hide PartyOk;
    match t
    case P(n) => if CanStep(s, n) { StepShared(s, n, PastP(s.closer), s.closer == Done); }
    case Q(n) => if CanStep(Swap(s), n) { StepShared(Swap(s), n, s.closer == Done, PastP(s.closer)); }
    case C => StepCloseInv(s);
  }

  lemma {:induction false} RunInv(turns: seq<Turn>)
    ensures Inv(Run(turns))
  {
    if turns != [] {
      RunInv(turns[..|turns| - 1]);
      StepInv(Run(turns[..|turns| - 1]), turns[|turns| - 1]);
    }
  }

  predicate Blocked(p: Party)
  {
    p.pc == Wait && !p.evt
  }

  /** Until the buffer is closed, whenever the lock is free each flag says exactly whether
      its thread has something to move, and each event is set exactly when its flag is. */
  lemma EventsAgree(turns: seq<Turn>)
    ensures var s := Run(turns);
            !s.closed && s.lock == Free ==>
              && s.p.evt == s.p.can == (s.p.avail > 0)
              && s.q.evt == s.q.can == (s.q.avail > 0)
  {
    RunInv(turns);
  }

  /** No lost wake-up: a thread never sleeps while it could move bytes and the lock is free. */
  lemma NoLostWakeup(turns: seq<Turn>)
    ensures var s := Run(turns);
            && (Blocked(s.p) && s.lock == Free ==> s.p.avail == 0)
            && (Blocked(s.q) && s.lock == Free ==> s.q.avail == 0)
  {
    RunInv(turns);
  }

  /** The reader and the writer are never both asleep. */
  lemma NeverBothBlocked(turns: seq<Turn>)
    ensures var s := Run(turns); !(Blocked(s.p) && Blocked(s.q))
  {
    RunInv(turns);
  }

  /** After bip_buffer_close, which takes no lock, no call stays asleep: a thread that still
      sleeps is woken by the very next step of the other one. */
  lemma CloseWakesAll(turns: seq<Turn>, n: nat)
    ensures var s := Run(turns);
            s.closer == Done ==>
              && (Blocked(s.p) ==> CanStep(Swap(s), n) && StepQ(s, n).p.evt)
              && (Blocked(s.q) ==> CanStep(s, n) && StepP(s, n).q.evt)
  {
    RunInv(turns);
  }

  /** The asserts in the code: a thread that sees its flag set has something to move, and
      then moves at least one byte. */
  lemma AssertsHold(turns: seq<Turn>)
    ensures var s := Run(turns);
            && (s.p.pc == Body ==> s.p.avail > 0 && CanStep(s, 1))
            && (s.q.pc == Body ==> s.q.avail > 0 && CanStep(Swap(s), 1))
  {
    RunInv(turns);
  }

  /** Mutual exclusion. */
  lemma OneInside(turns: seq<Turn>)
    ensures !(Holds(Run(turns).p.pc) && Holds(Run(turns).q.pc))
  {
    RunInv(turns);
  }

  // --- what a call does when the other thread stands still ---

  /** s is in order as seen by its first thread. */
  ghost predicate Sound(s: State)
  {
    exists pastP, pastQ :: Shared(s, pastP, pastQ)
  }

  /** Every reachable state is, for either thread. */
  lemma RunSound(turns: seq<Turn>)
    ensures Sound(Run(turns)) && Sound(Swap(Run(turns)))
  {
    RunInv(turns);
    var s := Run(turns);
    assert Shared(s, PastP(s.closer), s.closer == Done) && Shared(Swap(s), s.closer == Done, PastP(s.closer));
  }

  /** k steps of thread p alone. */
  function Alone(s: State, n: nat, k: nat): (s': State)
  {
    if k == 0 then s
    else
      var t := Alone(s, n, k - 1);
      if CanStep(t, n) then StepP(t, n) else t
  }

  lemma SwapTwice()
    ensures forall s :: Swap(Swap(s)) == s
  {
  }

  /** These steps are turns of a run, for either thread. */
  lemma {:induction false} AloneRuns(turns: seq<Turn>, n: nat, k: nat)
    ensures Run(turns + seq(k, _ => P(n))) == Alone(Run(turns), n, k)
    ensures Run(turns + seq(k, _ => Q(n))) == Swap(Alone(Swap(Run(turns)), n, k))
  {
    hide StepP, CanStep, StepClose, Swap, Run;
    SwapTwice();
    if k == 0 {
      assert turns + seq(0, _ => P(n)) == turns && turns + seq(0, _ => Q(n)) == turns;
    } else {
      AloneRuns(turns, n, k - 1);
      var ps, qs := turns + seq(k - 1, _ => P(n)), turns + seq(k - 1, _ => Q(n));
      assert turns + seq(k, _ => P(n)) == ps + [P(n)] && turns + seq(k, _ => Q(n)) == qs + [Q(n)];
      RunMore(ps, P(n));
      RunMore(qs, Q(n));
    }
  }

  /** A call that may enter and finds bytes to move moves them and returns: the bytes change
      sides, its own flag and event say whether any are left, and the other's are set. */
  lemma CallMoves(s: State, n: nat) returns (k: nat)
    requires Sound(s) && s.p.pc == Enter && s.lock == Free && 0 < n <= s.p.avail
    ensures var p := s.p.(pc := Idle, avail := s.p.avail - n, can := n < s.p.avail, evt := n < s.p.avail);
            Alone(s, n, k) == s.(p := p, q := s.q.(avail := s.q.avail + n, can := true, evt := true))
  {
    assert s.p.can && s.p.evt && (s.q.can ==> s.q.evt);
    var t := s.(p := s.p.(pc := Body), lock := ByP);
    assert Alone(s, n, 2) == t by { assert Alone(s, n, 1) == s.(p := s.p.(pc := Test), lock := ByP); }
    t := t.(p := t.p.(pc := if n < s.p.avail then Exit else Clear, avail := s.p.avail - n),
            q := t.q.(avail := s.q.avail + n));
    assert Alone(s, n, 3) == t;
    k := 3;
    if n == s.p.avail {
      assert Alone(s, n, 4) == t.(p := t.p.(pc := Reset, can := false));
      t := t.(p := t.p.(pc := Exit, can := false, evt := false));
      assert Alone(s, n, 5) == t;
      k := 5;
    }
    k := CallLeaves(s, n, k, t);
  }

  /** The rest of it: the other thread's flag and event, and the lock. */
  lemma CallLeaves(s: State, n: nat, i: nat, t: State) returns (k: nat)
    requires Alone(s, n, i) == t && t.p.pc == Exit && (t.q.can ==> t.q.evt)
    ensures Alone(s, n, k) == t.(p := t.p.(pc := Idle), q := t.q.(can := true, evt := true), lock := Free)
  {
    k := i + 1;
    if !t.q.can {
      assert Alone(s, n, i + 1) == t.(p := t.p.(pc := Raise));
      assert Alone(s, n, i + 2) == t.(p := t.p.(pc := Signal), q := t.q.(can := true));
      k := i + 3;
    }
    var u := t.(p := t.p.(pc := Leave), q := t.q.(can := true, evt := true));
    assert Alone(s, n, k) == u;
    k := k + 1;
  }

  /** A call that may enter and finds none goes to sleep, or fails if the buffer is closed. */
  lemma CallWaits(s: State, n: nat)
    requires Sound(s) && s.p.pc == Enter && s.lock == Free && s.p.avail == 0
    ensures Alone(s, n, 3) == s.(p := s.p.(pc := if s.closed then Idle else Wait))
    ensures !s.closed ==> Blocked(Alone(s, n, 3).p)
  {
    assert !s.p.can;
    assert Alone(s, n, 1) == s.(p := s.p.(pc := Test), lock := ByP);
    assert Alone(s, n, 2) == s.(p := s.p.(pc := Check));
  }

  /** A new call enters; one that is woken does so again, or fails if the buffer was closed. */
  lemma CallEnters(s: State, n: nat)
    ensures s.p.pc == Idle ==> Alone(s, n, 1) == s.(p := s.p.(pc := Enter))
    ensures s.p.pc == Wait && s.p.evt ==> Alone(s, n, 2) == s.(p := s.p.(pc := if s.closed then Idle else Enter))
  {
    if s.p.pc == Wait && s.p.evt {
      assert Alone(s, n, 1) == s.(p := s.p.(pc := Recheck));
    }
  }

  /** bip_buffer_close ends after at most five statements, with both events set. */
  lemma CloseFinishes(turns: seq<Turn>)
    requires Run(turns).closer == Open && Run(turns).lock == Free
    ensures var s, s' := Run(turns), Run(turns + [C, C, C, C, C]);
            s'.closer == Done && s' == s.(p := s.p.(evt := true), q := s.q.(evt := true), closed := true, closer := Done)
  {
    RunInv(turns);
    var s := Run(turns);
    RunMore(turns, C);
    RunMore(turns + [C], C);
    RunMore(turns + [C] + [C], C);
    RunMore(turns + [C] + [C] + [C], C);
    RunMore(turns + [C] + [C] + [C] + [C], C);
    assert turns + [C, C, C, C, C] == turns + [C] + [C] + [C] + [C] + [C];
  }

  lemma RunMore(turns: seq<Turn>, t: Turn)
    ensures Run(turns + [t]) == Step(Run(turns), t)
  {
    assert (turns + [t])[..|turns|] == turns;
  }
}
