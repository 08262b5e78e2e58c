/** fdevent, the event loop over select(): a growing table of fdevents, three sets of
    descriptors, a pending list and flag words, which every operation must keep in step.
    An fdevent is named by its address; 0 is the null pointer. */
module EventLoop {
  import opened Lists

  /** The bits of `state` and `events`. */
  datatype Flag = Read | Write | Error | Timeout | DontClose | Active | Pending | Created

  const EVENTMASK := {Read, Write, Error, Timeout, DontClose}

  type Ptr = nat

  datatype Fde = Fde(fd: int, state: set<Flag>, events: set<Flag>)

  /** What select() may report: an error that ends the round, a bad descriptor, or n ready bits. */
  datatype Selected =
    | Interrupted
    | BadFd
    | Ready(r: set<int>, w: set<int>, e: set<int>)

  // --- fdevent_set on one fdevent ---

  /** The new event mask; a pending fdevent loses the events that are newly wanted, and
      leaves the pending list when none is left. */
  function AfterSet(e: Fde, evs: set<Flag>): (r: Fde)
  {
    var want := evs * EVENTMASK;
    if e.state * EVENTMASK == want then e
    else
      var state := (e.state - EVENTMASK) + want;
      if Pending !in state then e.(state := state)
      else if e.events - want == {} then e.(state := state - {Pending}, events := {})
      else e.(state := state, events := e.events - want)
  }

  /** What fdevent_set does to each bit: the mask becomes what is asked for; if that is a
      change and events wait, those newly wanted are taken away, and the fdevent stays pending
      exactly if some are left. */
  lemma AfterSetBits(e: Fde, evs: set<Flag>)
    ensures var r := AfterSet(e, evs);
            var same := forall x :: x in EVENTMASK ==> (x in e.state <==> x in evs);
            && r.fd == e.fd
            && (forall x :: x in EVENTMASK ==> (x in r.state <==> x in evs))
            && (forall x :: x !in EVENTMASK && x != Pending ==> (x in r.state <==> x in e.state))
            && (same ==> r == e)
            && (!same && Pending in e.state ==>
                  && (forall x :: x in r.events <==> x in e.events && !(x in EVENTMASK && x in evs))
                  && (Pending in r.state <==> r.events != {}))
            && (Pending !in e.state ==> Pending !in r.state && r.events == e.events)
            && (Pending in r.state && e.events != {} ==> r.events != {})
  {
    var has, want := e.state * EVENTMASK, evs * EVENTMASK;
    assert forall x :: x in EVENTMASK ==> (x in has <==> x in e.state) && (x in want <==> x in evs);
    assert (forall x :: x in EVENTMASK ==> (x in e.state <==> x in evs)) ==> has == want;
    assert forall x :: x in e.events - want <==> x in e.events && !(x in EVENTMASK && x in evs);
  }

  /** The comment in fdevent_set says that an event no longer wanted is not signalled.  That
      holds exactly when every signalled event is wanted, and then, if the mask changes, none
      is signalled at all: the mask is subtracted where it should be kept. */
  lemma SetSignalsUnwanted(e: Fde, evs: set<Flag>)
    requires Pending in e.state
    ensures var r, want := AfterSet(e, evs), evs * EVENTMASK;
            && ((Pending in r.state ==> r.events <= want) <==> e.events <= want)
            && (e.events <= want && e.state * EVENTMASK != want ==> Pending !in r.state && r.events == {})
            && (Read in e.events && evs == {Write} ==> Pending in r.state && Read in r.events)
  {
    var want := evs * EVENTMASK;
    if !(e.events <= want) {
      var x :| x in e.events && x !in want;
      assert x in e.events - want;
    }
  }

  // --- counting bits ---

  function From(s: set<int>, i: int): (t: set<int>)
  {
    set x | x in s && x >= i
  }

  lemma FromStep(s: set<int>, i: int)
    ensures |From(s, i)| == |From(s, i + 1)| + (if i in s then 1 else 0)
  {
    if i in s {
      assert From(s, i) == From(s, i + 1) + {i};
    } else {
      assert From(s, i) == From(s, i + 1);
    }
  }

  /** The number of bits at descriptors from i on. */
  function Left(i: int, r: set<int>, w: set<int>, e: set<int>): (n: nat)
  {
    |From(r, i)| + |From(w, i)| + |From(e, i)|
  }

  lemma LeftStep(i: int, r: set<int>, w: set<int>, e: set<int>)
    ensures Left(i, r, w, e) == Left(i + 1, r, w, e)
              + (if i in r then 1 else 0) + (if i in w then 1 else 0) + (if i in e then 1 else 0)
  {
    FromStep(r, i);
    FromStep(w, i);
    FromStep(e, i);
  }

  lemma LeftAll(r: set<int>, w: set<int>, e: set<int>)
    requires forall i :: i in r || i in w || i in e ==> 0 <= i
    ensures Left(0, r, w, e) == |r| + |w| + |e|
  {
    assert From(r, 0) == r && From(w, 0) == w && From(e, 0) == e;
  }

  lemma NoneLeft(k: int, i: int, r: set<int>, w: set<int>, e: set<int>)
    requires i <= k && Left(i, r, w, e) == 0
    ensures Bits(k, r, w, e) == {}
  {
    assert From(r, i) == {} && From(w, i) == {} && From(e, i) == {};
    assert k !in From(r, i) && k !in From(w, i) && k !in From(e, i);
  }

  /** The events that three descriptor sets report for descriptor i. */
  function Bits(i: int, r: set<int>, w: set<int>, e: set<int>): (evs: set<Flag>)
  {
    (if i in r then {Read} else {}) + (if i in w then {Write} else {}) + (if i in e then {Error} else {})
  }

  /** Read, write and error come from the set of that name, and nothing else is reported. */
  lemma BitsIff(i: int, r: set<int>, w: set<int>, e: set<int>, x: Flag)
    ensures x in Bits(i, r, w, e) <==> (x == Read && i in r) || (x == Write && i in w) || (x == Error && i in e)
  {
  }

  function BitsBelow(k: int, i: int, r: set<int>, w: set<int>, e: set<int>): (evs: set<Flag>)
  {
    if k < i then Bits(k, r, w, e) else {}
  }

  /** What a callback may do to the loop. */
  datatype Op =
    | DoInstall(f: Ptr, fd: int)
    | DoRemove(f: Ptr)
    | DoSet(f: Ptr, evs: set<Flag>)
    | DoForce(f: Ptr, nested: seq<Op>)  // fdevent_subproc_event_func on another fdevent

  /** The fdevents that these operations remove or set. */
  function Touched(ops: seq<Op>): (fs: set<Ptr>)
  {
    if ops == [] then {} else TouchedBy(ops[0]) + Touched(ops[1..])
  }

  function TouchedBy(op: Op): (fs: set<Ptr>)
  {
    match op
    case DoInstall(_, _) => {}
    case DoRemove(f) => {f}
    case DoSet(f, _) => {f}
    case DoForce(_, nested) => Touched(nested)
  }

  lemma {:induction false} TouchedHas(ops: seq<Op>, i: nat)
    requires i < |ops|
    ensures TouchedBy(ops[i]) <= Touched(ops)
  {
    if i > 0 { TouchedHas(ops[1..], i - 1); }
  }

  // --- what happened to the events ---

  /** The history of the loop: an fdevent was installed or removed, events were reported for
      it, fdevent_set took some away, or it was called with some. */
  datatype Note =
    | Renewed(f: Ptr)
    | Reported(f: Ptr, evs: set<Flag>)
    | Taken(f: Ptr, evs: set<Flag>)
    | Called(f: Ptr, evs: set<Flag>)

  function Then(owed: set<Flag>, n: Note): (r: set<Flag>)
  {
    match n
    case Renewed(_) => {}
    case Reported(_, evs) => owed + evs
    case Taken(_, evs) => owed - evs
    case Called(_, _) => {}
  }

  /** The events reported for f since its last call, less what fdevent_set took away. */
  function Owed(trace: seq<Note>, f: Ptr): (evs: set<Flag>)
  {
    if trace == [] then {}
    else
      var before, n := Owed(trace[..|trace| - 1], f), trace[|trace| - 1];
      if n.f == f then Then(before, n) else before
  }

  /** Nothing is owed to f of event x after this: it was called or renewed, or x was taken away. */
  predicate Ends(n: Note, f: Ptr, x: Flag)
  {
    n.f == f && (n.Renewed? || n.Called? || (n.Taken? && x in n.evs))
  }

  /** The i-th entry reports x for f, and nothing after it ends that. */
  ghost predicate Waits(trace: seq<Note>, f: Ptr, x: Flag, i: nat)
  {
    && i < |trace| && trace[i].Reported? && trace[i].f == f && x in trace[i].evs
    && forall j :: i < j < |trace| ==> !Ends(trace[j], f, x)
  }

  /** An event is owed exactly if it was reported and nothing has ended that since. */
  lemma {:induction false} OwedIff(trace: seq<Note>, f: Ptr, x: Flag)
    ensures x in Owed(trace, f) <==> exists i :: Waits(trace, f, x, i)
  {
    if trace != [] {
      var last := |trace| - 1;
      var before, n := trace[..last], trace[last];
      OwedIff(before, f, x);
      if x in Owed(trace, f) {
        if x in Owed(before, f) {
          var i :| Waits(before, f, x, i);
          assert Waits(trace, f, x, i);
        } else {
          assert Waits(trace, f, x, last);
        }
      }
      if i: nat :| Waits(trace, f, x, i) {
        if i < last { assert Waits(before, f, x, i); }
      }
    }
  }

  /** Entry j is the call that gets event x of the report i, or what prevents it. */
  predicate Answers(trace: seq<Note>, i: nat, j: nat, x: Flag)
  {
    && i < j < |trace| && trace[j].f == trace[i].f
    && (trace[j].Renewed? || ((trace[j].Called? || trace[j].Taken?) && x in trace[j].evs))
  }

  /** If nothing is owed at the end, no reported event was lost. */
  lemma {:induction false} NoneLost(trace: seq<Note>, i: nat, x: Flag)
    requires Told(trace) && i < |trace| && trace[i].Reported? && x in trace[i].evs
    ensures x in Owed(trace, trace[i].f) || exists j :: Answers(trace, i, j, x)
    decreases |trace|
  {
    var last, f := |trace| - 1, trace[i].f;
    if i < last {
      var before := trace[..last];
      assert forall k :: 0 <= k < last ==> before[..k] == trace[..k];
      NoneLost(before, i, x);
      if j :| Answers(before, i, j, x) {
        assert Answers(trace, i, j, x);
      } else if x !in Owed(trace, f) {
        assert Answers(trace, i, last, x);
      }
    }
  }

  /** Each fdevent holds what it is owed. */
  ghost predicate Owes(mem: map<Ptr, Fde>, trace: seq<Note>)
  {
    forall f :: Owed(trace, f) == if f in mem then mem[f].events else {}
  }

  /** Each call got exactly what was owed, and never nothing. */
  ghost predicate Told(trace: seq<Note>)
  {
    forall i :: 0 <= i < |trace| && trace[i].Called? ==> trace[i].evs == Owed(trace[..i], trace[i].f) != {}
  }

  /** f has been called since the history had length n. */
  ghost predicate CalledSince(trace: seq<Note>, n: nat, f: Ptr)
  {
    exists i :: n <= i < |trace| && trace[i].Called? && trace[i].f == f
  }

  lemma CalledMore(t: seq<Note>, f: Ptr, evs: set<Flag>, t': seq<Note>, n: nat, fs: seq<Ptr>)
    requires n <= |t| && t + [Called(f, evs)] <= t' && forall g :: g in fs ==> CalledSince(t, n, g)
    ensures forall g :: g in fs + [f] ==> CalledSince(t', n, g)
  {
    forall g | g in fs + [f] ensures CalledSince(t', n, g) {
      if g in fs {
        var i :| n <= i < |t| && t[i].Called? && t[i].f == g;
        assert t'[i] == t[i];
      } else {
        assert t'[|t|] == Called(f, evs);
      }
    }
  }

  lemma NoteOne(mem: map<Ptr, Fde>, trace: seq<Note>, e: Fde, n: Note)
    requires Owes(mem, trace) && Told(trace)
    requires e.events == Then(if n.f in mem then mem[n.f].events else {}, n) && (n.f in mem || n.Renewed?)
    requires n.Called? ==> n.f in mem && n.evs == mem[n.f].events != {}
    ensures Owes(mem[n.f := e], trace + [n]) && Told(trace + [n])
  {
    var after := trace + [n];
    assert after[..|trace|] == trace;
    forall i | 0 <= i < |trace| ensures after[..i] == trace[..i] {}
  }

  /** The reports of one round, in the order of the descriptors below k. */
  function Reports(table: seq<Ptr>, r: set<int>, w: set<int>, e: set<int>, k: nat): (ns: seq<Note>)
    requires k <= |table|
  {
    if k == 0 then []
    else
      Reports(table, r, w, e, k - 1)
      + (if Bits(k - 1, r, w, e) == {} then [] else [Note.Reported(table[k - 1], Bits(k - 1, r, w, e))])
  }

  lemma {:induction false} ReportsRest(table: seq<Ptr>, r: set<int>, w: set<int>, e: set<int>, i: nat, k: nat)
    requires i <= k <= |table| && forall j :: i <= j < k ==> Bits(j, r, w, e) == {}
    ensures Reports(table, r, w, e, k) == Reports(table, r, w, e, i)
  {
    if i < k { ReportsRest(table, r, w, e, i, k - 1); }
  }

  /** An fdevent for which nothing is pending has no events. */
  ghost predicate Idle(mem: map<Ptr, Fde>)
  {
    forall f :: f in mem && Pending !in mem[f].state ==> mem[f].events == {}
  }

  // --- what the operations of a callback do to the fdevents ---

  predicate InUse(mem: map<Ptr, Fde>, f: Ptr)
  {
    f in mem && Active in mem[f].state
  }

  ghost predicate Free(mem: map<Ptr, Fde>, f: Ptr, fd: int)
  {
    f != 0 && !InUse(mem, f) && forall g :: InUse(mem, g) ==> mem[g].fd != fd
  }

  /** An fdevent not in use gets a descriptor that no other has, up to the limit of the table;
      only one that is in use can be forced, and one that waits just gets the event. */
  ghost predicate Step(op: Op, m: map<Ptr, Fde>, m': map<Ptr, Fde>)
  {
    match op
    case DoInstall(f, fd) =>
      if Free(m, f, fd) && 0 <= fd <= 32000 then m' == m[f := Fde(fd, {Active}, {})]
      else m' == m || (Free(m, f, fd) && fd > 32000 && m' == m[f := Fde(fd, {Active}, {})])
    case DoRemove(f) => m' == if f in m then m[f := m[f].(state := {}, events := {})] else m
    case DoSet(f, evs) => m' == if f in m then m[f := AfterSet(m[f], evs)] else m
    case DoForce(f, nested) =>
      if !InUse(m, f) then m' == m
      else if Pending in m[f].state then m' == m[f := m[f].(events := m[f].events + {Read})]
      else exists states :: Steps(nested, states) && states[0] == m && states[|nested|] == m'
  }

  ghost predicate Steps(ops: seq<Op>, states: seq<map<Ptr, Fde>>)
    ensures Steps(ops, states) ==> |states| == |ops| + 1
  {
    |states| == |ops| + 1 && forall i :: 0 <= i < |ops| ==> Step(ops[i], states[i], states[i + 1])
  }

  lemma StepsSnoc(ops: seq<Op>, states: seq<map<Ptr, Fde>>, op: Op, m: map<Ptr, Fde>)
    requires Steps(ops, states) && Step(op, states[|ops|], m)
    ensures Steps(ops + [op], states + [m])
  {
    var all, after := ops + [op], states + [m];
    forall i | 0 <= i < |all| ensures Step(all[i], after[i], after[i + 1]) {
      if i < |ops| { assert all[i] == ops[i] && after[i] == states[i] && after[i + 1] == states[i + 1]; }
    }
  }

  lemma IdleUpdate(mem: map<Ptr, Fde>, f: Ptr, e: Fde)
    requires Idle(mem) && (Pending in e.state || e.events == {})
    ensures Idle(mem[f := e])
  {
  }

  class Loop {
    ghost var trace: seq<Note>
    var mem: map<Ptr, Fde>
    var table: seq<Ptr>
    var readFds: set<int>
    var writeFds: set<int>
    var errorFds: set<int>
    var selectN: nat
    var pending: seq<Ptr>

    /** The slot of descriptor i is in use. */
    predicate Used(i: int)
      reads this`table
    {
      0 <= i < |table| && table[i] != 0
    }

    predicate Registered(f: Ptr)
      reads this`mem, this`table
    {
      f in mem && f != 0 && 0 <= mem[f].fd < |table| && table[mem[f].fd] == f
    }

    /** The table is indexed by descriptor, and select_n is above every registered one. */
    ghost predicate TableOk()
      reads this`mem, this`table, this`selectN
    {
      && selectN <= |table|
      && forall i :: Used(i) ==> i < selectN && table[i] in mem && mem[table[i]].fd == i && Active in mem[table[i]].state
    }

    predicate Wants(i: int, flag: Flag)
      reads this`mem, this`table
    {
      Used(i) && table[i] in mem && flag in mem[table[i]].state
    }

    /** A descriptor set holds exactly the registered fdevents that ask for its event. */
    ghost predicate SetOk(fds: set<int>, flag: Flag)
      reads this`mem, this`table
    {
      forall i :: i in fds <==> Wants(i, flag)
    }

    /** FDE_PENDING marks exactly the members of the pending list, each there once.
        `gone` is an fdevent taken off the list whose flag is about to be cleared. */
    ghost predicate PendingOk(gone: Ptr)
      requires TableOk()
      reads this`mem, this`table, this`selectN, this`pending
    {
      && NoDup(pending) && gone !in pending
      && (forall f :: f in pending ==> Registered(f) && Pending in mem[f].state && mem[f].events != {})
      && (forall i :: Used(i) && Pending in mem[table[i]].state ==> table[i] in pending || table[i] == gone)
    }

    /** An fdevent that is either registered or not in use at all. */
    predicate Known(f: Ptr)
      reads this`mem, this`table
    {
      f in mem && (Registered(f) || !(Active in mem[f].state || Pending in mem[f].state))
    }

    ghost predicate AllKnown()
      reads this`mem, this`table
    {
      forall f :: f in mem ==> Known(f)
    }

    ghost predicate ValidBut(gone: Ptr)
      reads this`mem, this`table, this`readFds, this`writeFds, this`errorFds, this`selectN, this`pending
    {
      && TableOk() && PendingOk(gone) && AllKnown() && Idle(mem)
      && SetOk(readFds, Read) && SetOk(writeFds, Write) && SetOk(errorFds, Error)
    }

    ghost predicate Valid()
      reads this`mem, this`table, this`readFds, this`writeFds, this`errorFds, this`selectN, this`pending
    {
      ValidBut(0)
    }

    /** The fdevents hold exactly what the history says they are owed. */
    ghost predicate Logged()
      reads this`mem, this`trace
    {
      Owes(mem, trace) && Told(trace)
    }

    constructor ()
      ensures Valid() && Logged() && table == [] && pending == [] && trace == []
    {
      trace := [];
      mem, table, readFds, writeFds, errorFds, selectN, pending := map[], [], {}, {}, {}, 0, [];
    }

    /** fdevent_register: room for the descriptor, new slots empty. */
    method Grow(fd: nat)
      requires |table| <= fd && Valid()
      modifies this`table
      ensures Valid() && fd < |table|
      ensures old(table) <= table && forall i :: |old(table)| <= i < |table| ==> table[i] == 0
    {
      var max := if |table| == 0 then 256 else |table|;
      while max <= fd
        invariant |table| <= max && 0 < max
        decreases fd - max
      {
        max := max * 2;
      }
      ghost var was := table;
      table := table + seq(max - |table|, _ => 0);
      assert forall i :: 0 <= i < |was| ==> table[i] == was[i];
    }

    /** fdevent_install.  The caller owns the descriptor, so its slot is free, and the
        fdevent is not in use.  Negative and huge descriptors are fatal. */
    method Install(f: Ptr, fd: int) returns (ok: bool)
      requires Valid() && Logged() && f != 0 && !Registered(f) && !Used(fd)
      modifies this
      ensures Logged() && trace == old(trace) + if ok then [Renewed(f)] else []
      ensures ok == (0 <= fd && (fd < |old(table)| || fd <= 32000))
      ensures Valid() && pending == old(pending)
      ensures !ok ==> mem == old(mem) && table == old(table)
      ensures ok ==> && mem == old(mem)[f := Fde(fd, {Active}, {})]
                     && fd < |table| && table[fd] == f && |old(table)| <= |table|
                     && forall i :: 0 <= i < |table| && i != fd ==>
                          table[i] == if i < |old(table)| then old(table)[i] else 0
      ensures readFds == old(readFds) && writeFds == old(writeFds) && errorFds == old(errorFds)
    {
      hide Owes, Told, Idle;
      if fd < 0 || (fd >= |table| && fd > 32000) {
        assert trace + [] == trace;
        return false;
      }
      if fd >= |table| {
        Grow(fd);
      }
      NoteOne(mem, trace, Fde(fd, {Active}, {}), Renewed(f));
      Connect(f, fd);
      trace := trace + [Renewed(f)];
      ok := true;
    }

    /** fdevent_register, once there is room, and fdevent_connect. */
    method Connect(f: Ptr, fd: int)
      requires Valid() && f != 0 && !Registered(f) && 0 <= fd < |table| && !Used(fd)
      modifies this`mem, this`table, this`selectN
      ensures Valid() && mem == old(mem)[f := Fde(fd, {Active}, {})] && table == old(table)[fd := f]
    {
      hide Idle;
      IdleUpdate(mem, f, Fde(fd, {Active}, {}));
      assert f !in table;
      mem := mem[f := Fde(fd, {Active}, {})];
      table := table[fd := f];
      if fd >= selectN {
        selectN := fd + 1;
      }
      assert TableOk();
    }

    /** fdevent_disconnect: recomputes select_n while the fdevent is still in the table. */
    method Disconnect(f: Ptr)
      requires TableOk() && Registered(f)
      modifies this`readFds, this`writeFds, this`errorFds, this`selectN
      ensures TableOk()
      ensures readFds == old(readFds) - {mem[f].fd} && writeFds == old(writeFds) - {mem[f].fd}
      ensures errorFds == old(errorFds) - {mem[f].fd}
    {
      var fd := mem[f].fd;
      readFds, writeFds, errorFds := readFds - {fd}, writeFds - {fd}, errorFds - {fd};
      assert Used(fd);
      var n := 0;
      for i := 0 to selectN
        invariant 0 <= n <= i && (i > 0 ==> n < i)
        invariant forall k :: 0 <= k < i && table[k] != 0 ==> k <= n
      {
        if table[i] != 0 { n := i; }
      }
      selectN := n + 1;
    }

    lemma NoEvents(f: Ptr)
      requires Idle(mem) && f in mem
      ensures Pending !in mem[f].state ==> mem[f].events == {}
    {
    }

    lemma KnownFlags(f: Ptr)
      requires Valid() && f in mem
      ensures Active in mem[f].state <==> Registered(f)
      ensures Pending in mem[f].state <==> f in pending
    {
    }

    /** The new flag word of an fdevent, and the pending list without it if it no longer waits. */
    method Store(f: Ptr, e: Fde)
      requires TableOk() && PendingOk(0) && Known(f)
      requires e.fd == mem[f].fd && (Active in e.state <==> Active in mem[f].state)
      requires Pending in e.state ==> f in pending && e.events != {}
      modifies this`mem, this`pending
      ensures TableOk() && PendingOk(0) && Known(f)
      ensures mem == old(mem)[f := e]
      ensures Registered(f) == old(Registered(f))
      ensures forall i, flag :: Wants(i, flag) <==>
                if old(Registered(f)) && i == e.fd then flag in e.state else old(Wants(i, flag))
      ensures pending == if Pending in e.state then old(pending) else Without(old(pending), f)
      ensures f in pending <==> Pending in e.state
    {
      WithoutProps(pending, f);
      if Registered(f) {
        assert Used(mem[f].fd);
      }
      if Pending !in e.state {
        pending := Without(pending, f);
      }
      mem := mem[f := e];
    }

    /** fdevent_disconnect and fdevent_unregister of an active fdevent; the bad descriptor and
        "fd_table out of sync" are not reached. */
    method Detach(f: Ptr)
      requires Valid() && f in mem && Active in mem[f].state && f !in pending
      modifies this`mem, this`table, this`readFds, this`writeFds, this`errorFds, this`selectN
      ensures Valid() && !Registered(f)
      ensures mem == old(mem)[f := old(mem)[f].(state := {}, events := {})]
      ensures table == old(table)[old(mem)[f].fd := 0] && pending == old(pending)
    {
      hide Idle;
      KnownFlags(f);
      IdleUpdate(mem, f, mem[f].(state := {}, events := {}));
      var fd := mem[f].fd;
      Disconnect(f);
      assert 0 <= fd < |table| && table[fd] == f;
      table := table[fd := 0];
      mem := mem[f := mem[f].(state := {}, events := {})];
      assert TableOk();
    }

    /** The first half of fdevent_remove: nothing is pending for it any more. */
    method Cancel(f: Ptr)
      requires Valid() && f in mem
      modifies this`mem, this`pending
      ensures Valid() && mem == old(mem)[f := old(mem)[f].(state := old(mem)[f].state - {Pending}, events := {})]
      ensures pending == Without(old(pending), f) && f !in pending
    {
      KnownFlags(f);
      Store(f, mem[f].(state := mem[f].state - {Pending}, events := {}));
    }

    /** The last statement of fdevent_remove, for an fdevent that is not active. */
    method Clear(f: Ptr)
      requires Valid() && f in mem && Active !in mem[f].state && f !in pending
      modifies this`mem
      ensures Valid() && !Registered(f) && !old(Registered(f)) && mem == old(mem)[f := old(mem)[f].(state := {}, events := {})]
    {
      KnownFlags(f);
      assert mem[f].events == {};
      mem := mem[f := mem[f].(state := {})];
    }

    /** fdevent_remove. */
    method Remove(f: Ptr)
      requires Valid() && Logged() && f in mem
      modifies this
      ensures Logged() && trace == old(trace) + [Renewed(f)]
      ensures Valid() && !Registered(f)
      ensures mem == old(mem)[f := old(mem)[f].(state := {}, events := {})]
      ensures table == if old(Registered(f)) then old(table)[old(mem)[f].fd := 0] else old(table)
      ensures pending == Without(old(pending), f)
    {
      hide Owes, Told, Idle;
      NoteOne(mem, trace, mem[f].(state := {}, events := {}), Renewed(f));
      trace := trace + [Renewed(f)];
      Unlink(f);
    }

    method Unlink(f: Ptr)
      requires Valid() && f in mem
      modifies this`mem, this`pending, this`table, this`readFds, this`writeFds, this`errorFds, this`selectN
      ensures Valid() && !Registered(f)
      ensures mem == old(mem)[f := old(mem)[f].(state := {}, events := {})]
      ensures table == if old(Registered(f)) then old(table)[old(mem)[f].fd := 0] else old(table)
      ensures pending == Without(old(pending), f)
    {
      hide Idle;
      Cancel(f);
      if Active in mem[f].state {
        KnownFlags(f);
        Detach(f);
      } else {
        Clear(f);
      }
    }

    /** fdevent_update on the three descriptor sets. */
    method Update(fd: int, evs: set<Flag>)
      modifies this`readFds, this`writeFds, this`errorFds
      ensures readFds == (if Read in evs then old(readFds) + {fd} else old(readFds) - {fd})
      ensures writeFds == (if Write in evs then old(writeFds) + {fd} else old(writeFds) - {fd})
      ensures errorFds == (if Error in evs then old(errorFds) + {fd} else old(errorFds) - {fd})
    {
      readFds := if Read in evs then readFds + {fd} else readFds - {fd};
      writeFds := if Write in evs then writeFds + {fd} else writeFds - {fd};
      errorFds := if Error in evs then errorFds + {fd} else errorFds - {fd};
    }

    lemma SetKeeps(e: Fde, evs: set<Flag>)
      requires e.state * EVENTMASK != evs * EVENTMASK && (Pending !in e.state <==> e.events == {})
      ensures var r := AfterSet(e, evs);
              && r.fd == e.fd && (Active in r.state <==> Active in e.state)
              && (Read in r.state <==> Read in evs) && (Write in r.state <==> Write in evs)
              && (Error in r.state <==> Error in evs)
              && (Pending in r.state ==> Pending in e.state) && (Pending !in r.state <==> r.events == {})
    {
    }

    lemma SameMask(e: Fde, evs: set<Flag>)
      requires e.state * EVENTMASK == evs * EVENTMASK
      ensures AfterSet(e, evs) == e
    {
    }

    /** What fdevent_set takes away: the events newly wanted, if the mask changes. */
    function TakenBy(e: Fde, evs: set<Flag>): (r: set<Flag>)
    {
      if e.state * EVENTMASK == evs * EVENTMASK then {} else evs * EVENTMASK
    }

    lemma SetTakes(e: Fde, evs: set<Flag>)
      requires Pending !in e.state ==> e.events == {}
      ensures AfterSet(e, evs).events == e.events - TakenBy(e, evs)
    {
    }

    /** fdevent_set. */
    method Set(f: Ptr, evs: set<Flag>)
      requires Valid() && Logged() && f in mem
      modifies this
      ensures Logged() && trace == old(trace) + [Taken(f, TakenBy(old(mem)[f], evs))]
      ensures Valid()
      ensures mem == old(mem)[f := AfterSet(old(mem)[f], evs)]
      ensures table == old(table) && selectN == old(selectN)
      ensures pending == if Pending in mem[f].state then old(pending) else Without(old(pending), f)
    {
      hide Owes, Told;
      SetTakes(mem[f], evs);
      NoteOne(mem, trace, AfterSet(mem[f], evs), Taken(f, TakenBy(mem[f], evs)));
      trace := trace + [Taken(f, TakenBy(mem[f], evs))];
      SetMask(f, evs);
    }

    method SetMask(f: Ptr, evs: set<Flag>)
      requires Valid() && f in mem
      modifies this`mem, this`pending, this`readFds, this`writeFds, this`errorFds
      ensures Valid() && mem == old(mem)[f := AfterSet(old(mem)[f], evs)]
      ensures pending == if Pending in mem[f].state then old(pending) else Without(old(pending), f)
    {
      hide Idle, AfterSet, TableOk, AllKnown, SetOk;
      KnownFlags(f);
      NoEvents(f);
      var e := AfterSet(mem[f], evs);
      if mem[f].state * EVENTMASK == evs * EVENTMASK {
        SameMask(mem[f], evs);
        assert mem == mem[f := mem[f]];
        WithoutProps(pending, f);
        return;
      }
      SetKeeps(mem[f], evs);
      IdleUpdate(mem, f, e);
      Mask(f, e, evs);
    }

    /** fdevent_update, if the fdevent is active, and its new flag word. */
    method Mask(f: Ptr, e: Fde, evs: set<Flag>)
      requires Valid() && f in mem && Idle(mem[f := e])
      requires e.fd == mem[f].fd && (Active in e.state <==> Active in mem[f].state)
      requires Pending in e.state ==> Pending in mem[f].state && e.events != {}
      requires (Read in e.state <==> Read in evs) && (Write in e.state <==> Write in evs) && (Error in e.state <==> Error in evs)
      modifies this`mem, this`pending, this`readFds, this`writeFds, this`errorFds
      ensures Valid() && mem == old(mem)[f := e]
      ensures pending == if Pending in e.state then old(pending) else Without(old(pending), f)
    {
      hide Idle, PendingOk;
      KnownFlags(f);
      if Active in mem[f].state {
        Update(mem[f].fd, evs);
      }
      Store(f, e);
    }

    /** fdevent_plist_enqueue, for a descriptor with events; "missing fde" is not reached. */
    method Signal(fd: int, evs: set<Flag>)
      requires Valid() && Logged() && Used(fd) && evs != {}
      modifies this`mem, this`pending, this`trace
      ensures Logged() && trace == old(trace) + [Note.Reported(table[fd], evs)]
      ensures Valid() && table[fd] in pending
      ensures mem == old(mem)[table[fd] := old(mem)[table[fd]].(
                       events := old(mem)[table[fd]].events + evs,
                       state := old(mem)[table[fd]].state + {Pending})]
      ensures pending == if table[fd] in old(pending) then old(pending) else old(pending) + [table[fd]]
      ensures forall k :: Used(k) && k != fd ==> table[k] != table[fd]
    {
      hide PendingOk, AllKnown, SetOk, Owes, Told, Idle;
      var f := table[fd];
      var e := mem[f].(events := mem[f].events + evs, state := mem[f].state + {Pending});
      NoteOne(mem, trace, e, Note.Reported(f, evs));
      trace := trace + [Note.Reported(f, evs)];
      Enqueue(f, e);
    }

    method Enqueue(f: Ptr, e: Fde)
      requires Valid() && Registered(f) && e.fd == mem[f].fd && e.state == mem[f].state + {Pending} && e.events != {}
      modifies this`mem, this`pending
      ensures Valid() && f in pending && mem == old(mem)[f := e]
      ensures pending == if f in old(pending) then old(pending) else old(pending) + [f]
    {
      hide Idle;
      KnownFlags(f);
      IdleUpdate(mem, f, e);
      if Pending !in mem[f].state {
        pending := pending + [f];
      }
      mem := mem[f := e];
      assert TableOk();
    }

    /** The descriptors that one round reports: those select() found or, when it found none,
        a read for each registered one that the system refuses. */
    ghost function Reported(sel: Selected, bad: set<int>): (rwe: (set<int>, set<int>, set<int>))
      requires !sel.Interrupted?
      reads this`table
    {
      if sel.Ready? && |sel.r| + |sel.w| + |sel.e| > 0 then (sel.r, sel.w, sel.e)
      else (set i | 0 <= i < |table| && Used(i) && i in bad, {}, {})
    }

    /** fdevent_process: every reported descriptor gets its events and is on the pending
        list afterwards, and nothing else changes. */
    method Process(sel: Selected, bad: set<int>)
      requires Valid() && Logged()
      requires sel.Ready? ==> sel.r <= readFds && sel.w <= writeFds && sel.e <= errorFds
      modifies this`mem, this`pending, this`trace
      ensures Valid() && Logged() && old(pending) <= pending
      ensures sel.Interrupted? ==> mem == old(mem) && pending == old(pending) && trace == old(trace)
      ensures !sel.Interrupted? ==>
                var (r, w, e) := old(Reported(sel, bad));
                trace == old(trace) + Reports(table, r, w, e, |table|)
      ensures !sel.Interrupted? ==>
                var (r, w, e) := old(Reported(sel, bad));
                forall i :: Got(i, old(mem), old(pending), Bits(i, r, w, e))
    {
      hide Owes, Told, Idle;
      if sel.Interrupted? { return; }
      var r, w, e := {}, {}, {};
      if sel.Ready? {
        r, w, e := sel.r, sel.w, sel.e;
      }
      var n := |r| + |w| + |e|;
      if n == 0 {
        r := FdCheck(bad);
        w, e := {}, {};
        n := |r|;
      }
      assert (r, w, e) == Reported(sel, bad);
      assert forall i :: i in r || i in w || i in e ==> Used(i);
      Collect(r, w, e, n);
    }

    /** fdevent_fd_check. */
    method FdCheck(bad: set<int>) returns (r: set<int>)
      requires TableOk()
      ensures r == set i | 0 <= i < |table| && Used(i) && i in bad
    {
      r := {};
      for i := 0 to selectN
        invariant r == set k | 0 <= k < i && Used(k) && k in bad
      {
        if table[i] != 0 && i in bad { r := r + {i}; }
      }
      assert forall i :: Used(i) ==> i < selectN;
    }

    /** Slot k has received `evs` since memory was m0 and the pending list p0. */
    ghost predicate Got(k: int, m0: map<Ptr, Fde>, p0: seq<Ptr>, evs: set<Flag>)
      requires TableOk()
      reads this`mem, this`table, this`selectN, this`pending
    {
      Used(k) ==>
        && table[k] in m0 && mem[table[k]].events == m0[table[k]].events + evs
        && (table[k] in pending <==> table[k] in p0 || evs != {})
    }

    ghost predicate GotBelow(i: int, m0: map<Ptr, Fde>, p0: seq<Ptr>, r: set<int>, w: set<int>, e: set<int>)
      requires TableOk()
      reads this`mem, this`table, this`selectN, this`pending
    {
      forall k :: Got(k, m0, p0, BitsBelow(k, i, r, w, e))
    }

    /** The loop of fdevent_process before descriptor i, with n bits to go. */
    ghost predicate Collecting(i: int, n: int, m0: map<Ptr, Fde>, p0: seq<Ptr>,
                               r: set<int>, w: set<int>, e: set<int>, t0: seq<Note>)
      reads this
    {
      && Logged() && 0 <= i <= |table| && trace == t0 + Reports(table, r, w, e, i)
      && Valid() && 0 <= i <= selectN <= |table| && p0 <= pending
      && n == Left(i, r, w, e) && GotBelow(i, m0, p0, r, w, e)
      && forall k :: Bits(k, r, w, e) != {} ==> Used(k)
    }

    /** One descriptor of the loop below. */
    method Visit(i: int, n: int, r: set<int>, w: set<int>, e: set<int>,
                 ghost m0: map<Ptr, Fde>, ghost p0: seq<Ptr>, ghost t0: seq<Note>)
      returns (n': int)
      requires Collecting(i, n, m0, p0, r, w, e, t0) && i < selectN
      modifies this`mem, this`pending, this`trace
      ensures Collecting(i + 1, n', m0, p0, r, w, e, t0)
    {
      hide TableOk, PendingOk, AllKnown, SetOk, Owes, Told, Idle;
      LeftStep(i, r, w, e);
      n' := n - (if i in r then 1 else 0) - (if i in w then 1 else 0) - (if i in e then 1 else 0);
      var evs := Bits(i, r, w, e);
      assert Got(i, m0, p0, BitsBelow(i, i, r, w, e));
      if evs != {} {
        Signal(i, evs);
      }
      assert trace == t0 + Reports(table, r, w, e, i + 1);
      var next := i + 1;
      forall k ensures Got(k, m0, p0, BitsBelow(k, next, r, w, e)) {
        assert old(Got(k, m0, p0, BitsBelow(k, i, r, w, e)));
      }
    }

    /** The loop over descriptors, which stops early once n bits have been seen. */
    method Collect(r: set<int>, w: set<int>, e: set<int>, count: int)
      requires Valid() && Logged() && count == |r| + |w| + |e|
      requires forall i :: i in r || i in w || i in e ==> Used(i)
      modifies this`mem, this`pending, this`trace
      ensures Valid() && Logged() && old(pending) <= pending
      ensures trace == old(trace) + Reports(table, r, w, e, |table|)
      ensures forall i :: Got(i, old(mem), old(pending), Bits(i, r, w, e))
    {
      hide TableOk, PendingOk, AllKnown, SetOk, Got, Owes, Told, Idle;
      var n, i := count, 0;
      ghost var m0, p0, t0 := mem, pending, trace;
      assert t0 + [] == t0;
      LeftAll(r, w, e);
      GotNone(r, w, e);
      while i < selectN && n > 0
        invariant Collecting(i, n, m0, p0, r, w, e, t0)
      {
        n := Visit(i, n, r, w, e, m0, p0, t0);
        i := i + 1;
      }
      GotAll(i, m0, p0, r, w, e);
      AllReported(i, r, w, e);
    }

    lemma AllReported(i: int, r: set<int>, w: set<int>, e: set<int>)
      requires TableOk() && 0 <= i <= |table| && (i >= selectN || Left(i, r, w, e) == 0)
      requires forall k :: Bits(k, r, w, e) != {} ==> Used(k)
      ensures Reports(table, r, w, e, |table|) == Reports(table, r, w, e, i)
    {
      forall k | i <= k ensures Bits(k, r, w, e) == {} {
        if i < selectN { NoneLeft(k, i, r, w, e); }
      }
      ReportsRest(table, r, w, e, i, |table|);
    }

    lemma GotNone(r: set<int>, w: set<int>, e: set<int>)
      requires TableOk()
      ensures GotBelow(0, mem, pending, r, w, e) && selectN <= |table|
    {
    }

    lemma GotAll(i: int, m0: map<Ptr, Fde>, p0: seq<Ptr>, r: set<int>, w: set<int>, e: set<int>)
      requires TableOk() && GotBelow(i, m0, p0, r, w, e) && (i >= selectN || Left(i, r, w, e) == 0)
      ensures forall k :: Got(k, m0, p0, Bits(k, r, w, e))
    {
      forall k ensures Got(k, m0, p0, Bits(k, r, w, e)) {
        assert Got(k, m0, p0, BitsBelow(k, i, r, w, e));
        if Used(k) && k >= i {
          NoneLeft(k, i, r, w, e);
        }
      }
    }

    /** A read event forced on an fdevent: one that is pending just gets it; any other is
        called with it at once, outside the pending list, so its flag is set and cleared again. */
    method Force(f: Ptr) returns (waits: bool)
      requires Valid() && Logged() && Registered(f)
      modifies this`mem, this`trace
      ensures Valid() && Logged() && waits == (f in pending)
      ensures mem == if waits then old(mem)[f := old(mem)[f].(events := old(mem)[f].events + {Read})] else old(mem)
      ensures trace == old(trace) + [Note.Reported(f, {Read})] + if waits then [] else [Called(f, {Read})]
    {
      hide Owes, Told;
      KnownFlags(f);
      var e, got := mem[f], Note.Reported(f, {Read});
      waits := Pending in e.state;
      NoteOne(mem, trace, e.(events := e.events + {Read}), got);
      trace := trace + [got];
      if waits {
        mem := mem[f := e.(events := e.events + {Read})];
        assert TableOk();
        assert trace == trace + [];
      } else {
        assert e.events + {Read} == {Read};
        NoteOne(mem[f := e.(events := {Read})], trace, e, Called(f, {Read}));
        assert mem[f := e.(events := {Read})][f := e] == mem;
        trace := trace + [Called(f, {Read})];
      }
    }

    lemma FreeSlot(f: Ptr, fd: int)
      requires Valid()
      ensures Free(mem, f, fd) <==> f != 0 && !Registered(f) && !Used(fd)
    {
      if f in mem { KnownFlags(f); }
      if Used(fd) { assert InUse(mem, table[fd]); }
      if !Used(fd) {
        forall g | InUse(mem, g) ensures mem[g].fd != fd { KnownFlags(g); }
      }
    }

    /** One operation of a callback.  It puts nothing on the pending list, keeps its order, and
        takes off only an fdevent that it removes or sets. */
    method Perform(op: Op)
      requires Valid() && Logged()
      modifies this
      ensures Valid() && Logged() && Subseq(pending, old(pending)) && old(trace) <= trace
      ensures forall f :: f in old(pending) && f !in pending ==> f in TouchedBy(op)
      ensures Step(op, old(mem), mem)
      decreases op
    {
      hide PendingOk, AllKnown, SetOk, Owes, Told, Idle;
      SubseqSame(pending);
      match op
      case DoInstall(f, fd) =>
        FreeSlot(f, fd);
        if f != 0 && !Registered(f) && !Used(fd) {
          var _ := Install(f, fd);
        }
      case DoRemove(f) =>
        if f in mem {
          WithoutSubseq(pending, f);
          Remove(f);
        }
      case DoSet(f, evs) =>
        if f in mem {
          WithoutSubseq(pending, f);
          Set(f, evs);
        }
      case DoForce(f, nested) =>
        if f in mem { KnownFlags(f); }
        if Registered(f) {
          var waits := Force(f);
          if !waits {
            ghost var states := Callback(nested);
          }
        }
    }

    /** The body of a callback; `states` are the fdevents before, between and after its operations. */
    method Callback(ops: seq<Op>) returns (ghost states: seq<map<Ptr, Fde>>)
      requires Valid() && Logged()
      modifies this
      ensures Valid() && Logged() && Subseq(pending, old(pending)) && old(trace) <= trace
      ensures forall f :: f in old(pending) && f !in pending ==> f in Touched(ops)
      ensures Steps(ops, states) && states[0] == old(mem) && states[|ops|] == mem
      decreases ops
    {
      hide ValidBut, Owes, Told;
      SubseqSame(pending);
      states := [mem];
      for i := 0 to |ops|
        invariant Valid() && Logged() && Subseq(pending, old(pending)) && old(trace) <= trace
        invariant forall f :: f in old(pending) && f !in pending ==> f in Touched(ops)
        invariant Steps(ops[..i], states) && states[0] == old(mem) && states[i] == mem
      {
        TouchedHas(ops, i);
        ghost var before := pending;
        Perform(ops[i]);
        SubseqTrans(pending, before, old(pending));
        StepsSnoc(ops[..i], states, ops[i], mem);
        states := states + [mem];
        assert ops[..i + 1] == ops[..i] + [ops[i]];
      }
      assert ops[..|ops|] == ops;
    }

    /** fdevent_plist_dequeue. */
    method Dequeue() returns (f: Ptr)
      requires Valid() && pending != []
      modifies this`pending
      ensures ValidBut(f) && f == old(pending)[0] && pending == old(pending)[1..]
      ensures Registered(f) && mem[f].events != {} && Pending in mem[f].state
    {
      f := pending[0];
      assert f in pending;
      assert forall g :: g in pending <==> g == f || g in pending[1..];
      pending := pending[1..];
    }

    /** fdevent_call_fdfunc on the first pending fdevent: it gets its callback with exactly the
        events it is owed, and has none any more when that starts. */
    method CallNext(ops: seq<Op>) returns (f: Ptr, events: set<Flag>, ghost states: seq<map<Ptr, Fde>>)
      requires Valid() && Logged() && pending != []
      modifies this
      ensures Valid() && Logged() && Subseq(pending, old(pending)[1..])
      ensures f == old(pending)[0] && f in old(mem) && events == old(mem)[f].events == Owed(old(trace), f) != {}
      ensures old(trace) + [Called(f, events)] <= trace
      ensures forall g :: g in old(pending)[1..] && g !in pending ==> g in Touched(ops)
      ensures Steps(ops, states) && states[|ops|] == mem
      ensures states[0] == old(mem)[f := old(mem)[f].(events := {}, state := old(mem)[f].state - {Pending})]
    {
      hide ValidBut, Told, Steps;
      f := Dequeue();
      events := mem[f].events;
      NoteOne(mem, trace, mem[f].(events := {}, state := mem[f].state - {Pending}), Called(f, events));
      ClearPending(f);
      trace := trace + [Called(f, events)];
      states := Callback(ops);
    }

    method ClearPending(f: Ptr)
      requires ValidBut(f) && Registered(f)
      modifies this`mem
      ensures Valid() && mem == old(mem)[f := old(mem)[f].(events := {}, state := old(mem)[f].state - {Pending})]
    {
      mem := mem[f := mem[f].(events := {}, state := mem[f].state - {Pending})];
      assert TableOk();
    }

    /** The inner loop of fdevent_loop ends, because a callback can only shorten the pending
        list; afterwards nothing is pending.  The pending fdevents are called in order, each
        at most once, and one that is not called was removed or set by an earlier callback. */
    method Dispatch(script: seq<seq<Op>>) returns (called: seq<Ptr>)
      requires Valid() && Logged()
      modifies this
      ensures Valid() && Logged() && pending == [] && old(trace) <= trace
      ensures (forall f :: f in mem ==> mem[f].events == {}) && forall f :: f in called ==> CalledSince(trace, |old(trace)|, f)
      ensures Subseq(called, old(pending)) && NoDup(called)
      ensures forall f :: f in old(pending) && f !in called ==> exists i :: TakenOff(script, |called|, i, f)
    {
      hide ValidBut, Owes, Told;
      PendingOnce();
      called := [];
      SubseqSame(pending);
      assert called + pending == pending;
      while pending != []
        invariant Valid() && Logged() && Subseq(called + pending, old(pending)) && old(trace) <= trace
        invariant forall f :: f in called ==> CalledSince(trace, |old(trace)|, f)
        invariant forall f :: f in old(pending) && f !in called + pending ==> exists i :: TakenOff(script, |called|, i, f)
        decreases |pending|
      {
        ghost var before := pending;
        var k := |called|;
        var ops := if k < |script| then script[k] else [];
        ghost var t := trace;
        var f, evs, _ := CallNext(ops);
        CalledMore(t, f, evs, trace, |old(trace)|, called);
        SubseqAppend(called + [f], pending, before[1..]);
        assert (called + [f]) + before[1..] == called + before;
        SubseqTrans((called + [f]) + pending, called + before, old(pending));
        SubseqLength(pending, before[1..]);
        called := called + [f];
        forall g | g in old(pending) && g !in called + pending ensures exists i :: TakenOff(script, |called|, i, g) {
          if g in before {
            assert TakenOff(script, |called|, k, g);
          } else {
            var i :| TakenOff(script, k, i, g);
            assert TakenOff(script, |called|, i, g);
          }
        }
      }
      assert called + pending == called;
      SubseqNoDup(called, old(pending));
      NothingWaits();
    }

    lemma PendingOnce()
      requires Valid()
      ensures NoDup(pending)
    {
    }

    lemma NothingWaits()
      requires Valid() && pending == []
      ensures forall f :: f in mem ==> mem[f].events == {}
    {
      forall f | f in mem ensures mem[f].events == {} { KnownFlags(f); }
    }
  }

  /** The i-th of the first n callbacks removes or sets f. */
  predicate TakenOff(script: seq<seq<Op>>, n: nat, i: nat, f: Ptr)
  {
    i < n && i < |script| && f in Touched(script[i])
  }

  datatype Round = Round(setup: seq<Op>, sel: Selected, bad: set<int>, script: seq<seq<Op>>)

  /** fdevent_loop, for any number of rounds and anything the callbacks do: table, sets,
      flags and list agree at the end of each round, and every round ends.  Each callback got
      exactly the events reported for its fdevent since its last call, less what fdevent_set
      took away, and no event is lost: after each report comes the call that gets it, unless
      fdevent_set takes it away or the fdevent is removed or installed anew first. */
  method RunLoop(rounds: seq<Round>) returns (loop: Loop)
    ensures loop.Valid() && loop.pending == []
    ensures Told(loop.trace) && forall f :: Owed(loop.trace, f) == {}
    ensures forall i, x :: 0 <= i < |loop.trace| && loop.trace[i].Reported? && x in loop.trace[i].evs ==>
                             exists j :: Answers(loop.trace, i, j, x)
  {
    loop := new Loop();
    for i := 0 to |rounds|
      invariant fresh(loop) && loop.Valid() && loop.Logged() && loop.pending == []
    {
      var _ := loop.Callback(rounds[i].setup);
      SubseqLength(loop.pending, []);
      var sel := rounds[i].sel;
      if sel.Ready? {
        sel := Ready(sel.r * loop.readFds, sel.w * loop.writeFds, sel.e * loop.errorFds);
      }
      loop.Process(sel, rounds[i].bad);
      var _ := loop.Dispatch(rounds[i].script);
    }
    loop.NothingWaits();
    forall i, x | 0 <= i < |loop.trace| && loop.trace[i].Reported? && x in loop.trace[i].evs
      ensures exists j :: Answers(loop.trace, i, j, x)
    {
      NoneLost(loop.trace, i, x);
    }
  }
}
