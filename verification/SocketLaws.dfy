/** What each event does, told from the heap before it and without the functions that do it:
    which sockets change and how, and which packets go out. */
module SocketLaws {
  import opened Lists
  import opened Sockets

  // --- the packets that go out ---

  /** The listed socket with id y, bound to x unless x is 0. */
  ghost predicate Target(h: Heap, s: Ptr, y: nat, x: nat)
  {
    && s in h.list && s in h.mem && h.mem[s].id == y
    && (x == 0 || (h.mem[s].peer in h.mem && h.mem[h.mem[s].peer].id == x))
  }

  lemma FindIff(h: Heap, y: nat, x: nat, s: Ptr)
    requires Ok(h, {}) && s != 0
    ensures Find(h, y, x) == s <==> Target(h, s, y, x)
  {
    hide PeersOk, DisOk, ListenersOk;
    ListedAllocated(h);
    var k := IdAt(h, y, 0);
    if Target(h, s, y, x) {
      var j :| 0 <= j < |h.list| && h.list[j] == s;
      assert k <= j;
      assert h.list[k] in h.list;
    }
  }

  /** Nothing is found exactly if there is no such socket. */
  lemma FindNone(h: Heap, y: nat, x: nat)
    requires Ok(h, {})
    ensures Find(h, y, x) == 0 <==> forall s :: !Target(h, s, y, x)
  {
    hide Ok, Find;
    forall s | Target(h, s, y, x) ensures Find(h, y, x) == s && s != 0 {
      ListedAllocated(h);
      FindIff(h, y, x, s);
    }
    if Find(h, y, x) != 0 { FindIff(h, y, x, Find(h, y, x)); }
  }

  /** A local socket that closes tells its remote peer, with its own id first. */
  function Bye(mem: map<Ptr, Sock>, p: Ptr): (out: seq<Packet>)
    requires p in mem
  {
    var q := mem[p].peer;
    if mem[p].kind == Local && q in mem && mem[q].kind == Remote then [Clse(mem[q].tr, mem[p].id, mem[q].id)] else []
  }

  /** Closing every listed socket that t concerns, in the order of the list. */
  function Byes(mem: map<Ptr, Sock>, list: seq<Ptr>, t: Ptr): (out: seq<Packet>)
    requires forall p :: p in list ==> p in mem
  {
    if list == [] then [] else (if OnTransport(mem, list[0], t) then Bye(mem, list[0]) else []) + Byes(mem, list[1..], t)
  }

  /** The packets that an event makes the process send. */
  ghost predicate Says(h: Heap, ev: Event, out: seq<Packet>)
    requires forall p :: p in h.list ==> p in h.mem
  {
    match ev
    case Open(t, x, found, p, q) =>
      out == if x == 0 || t == 0 then []
             else if !found then [Clse(t, 0, x)]
             else if h.nextId < MAX_ID && Fresh(h, p) && Fresh(h, q) && p != q then [Okay(t, h.nextId, x)]
             else []
    case Data(t, x, y, blocks, fails) =>
      && (forall s :: Target(h, s, y, x) && x != 0 && y != 0 ==>
            out == if h.mem[s].queued > 0 then []
                   else if fails then Bye(h.mem, s)
                   else if blocks then []
                   else [Okay(t, y, x)])
      && (x == 0 || y == 0 || (forall s :: !Target(h, s, y, x)) ==> out == [])
    case Writable(p, done, fails) =>
      out == if p !in h.mem || h.mem[p].kind != Local || h.mem[p].queued == 0 then []
             else if fails then Bye(h.mem, p)
             else if done && !h.mem[p].closing && h.mem[p].peer in h.mem && h.mem[h.mem[p].peer].kind == Remote
             then [Okay(h.mem[h.mem[p].peer].tr, h.mem[p].id, h.mem[h.mem[p].peer].id)]
             else []
    case CloseMsg(t, x, y) =>
      && (forall s :: Target(h, s, y, x) && y != 0 ==>
            out == if x == 0 && h.mem[s].peer in h.mem && h.mem[h.mem[s].peer].tr != t then [] else Bye(h.mem, s))
      && (y == 0 || (forall s :: !Target(h, s, y, x)) ==> out == [])
    case Eof(p) => out == if p in h.mem then Bye(h.mem, p) else []
    case InputEnds(t) => out == Byes(h.mem, h.list, t)
    case _ => out == []
  }

  lemma CloseSays(h: Heap, p: Ptr)
    requires Ok(h, {}) && p in h.mem
    ensures PeersOk(h.mem, {}) && Close(h, p).sent == h.sent + Bye(h.mem, p)
  {
    PeersOfOk(h);
    assert PeerOk(h.mem, p, {});
    assert h.sent + [] == h.sent;
  }

  lemma EnqueueSays(h: Heap, s: Ptr, blocks: bool, fails: bool)
    requires Ok(h, {}) && s in h.mem
    ensures PeersOk(h.mem, {})
    ensures EnqueueLocal(h, s, blocks, fails).0.sent == h.sent + if h.mem[s].queued == 0 && fails then Bye(h.mem, s) else []
    ensures EnqueueLocal(h, s, blocks, fails).1 <==> h.mem[s].queued == 0 && !fails && !blocks
  {
    hide Ok, Close, Bye;
    CloseSays(h, s);
    assert h.sent + [] == h.sent;
  }

  lemma DataSays(h: Heap, t: Ptr, x: nat, y: nat, blocks: bool, fails: bool)
    requires Ok(h, {})
    ensures h.sent <= HandleData(h, t, x, y, blocks, fails).sent
    ensures ListedIn(h) && Says(h, Data(t, x, y, blocks, fails), HandleData(h, t, x, y, blocks, fails).sent[|h.sent|..])
  {
    hide Ok, EnqueueLocal, Find, Target, Bye;
    ListedAllocated(h);
    FindNone(h, y, x);
    var s := Find(h, y, x);
    if x != 0 && y != 0 && s != 0 {
      EnqueueSays(h, s, blocks, fails);
      forall r | Target(h, r, y, x) ensures r == s { TargetsAgree(h, y, x, r); }
    }
  }

  predicate ListedIn(h: Heap)
  {
    forall p :: p in h.list ==> p in h.mem
  }

  lemma TargetsAgree(h: Heap, y: nat, x: nat, s: Ptr)
    requires Ok(h, {}) && Target(h, s, y, x)
    ensures s != 0 && Find(h, y, x) == s
  {
    hide Ok, Find;
    ListedAllocated(h);
    FindIff(h, y, x, s);
  }

  lemma CloseMsgSays(h: Heap, t: Ptr, x: nat, y: nat)
    requires Ok(h, {})
    ensures h.sent <= Step(h, CloseMsg(t, x, y)).sent
    ensures ListedIn(h) && Says(h, CloseMsg(t, x, y), Step(h, CloseMsg(t, x, y)).sent[|h.sent|..])
  {
    hide Ok, Close, Find, Target, Bye;
    ListedAllocated(h);
    FindNone(h, y, x);
    var s := Find(h, y, x);
    if y != 0 && s != 0 {
      CloseSays(h, s);
      forall r | Target(h, r, y, x) ensures r == s { TargetsAgree(h, y, x, r); }
    }
  }

  lemma WritableSays(h: Heap, p: Ptr, done: bool, fails: bool)
    requires Ok(h, {}) && p in h.mem && h.mem[p].kind == Local && h.mem[p].queued > 0
    ensures h.sent <= HandleWritable(h, p, done, fails).sent
    ensures ListedIn(h) && Says(h, Writable(p, done, fails), HandleWritable(h, p, done, fails).sent[|h.sent|..])
  {
    hide ListsOk, IdsOk, DisOk, ListenersOk, Close;
    ListedAllocated(h);
    CloseSays(h, p);
    assert PeerOk(h.mem, p, {});
    if h.mem[p].closing { ClosingIsAlone(h, p); }
  }

  lemma ClosingIsAlone(h: Heap, p: Ptr)
    requires Ok(h, {}) && p in h.mem && h.mem[p].kind == Local && h.mem[p].closing
    ensures h.mem[p].peer == 0 && 0 !in h.mem
  {
    assert LocalOk(h, p);
  }

  /** Disconnecting a transport sends nothing: its sockets close from the remote side. */
  lemma {:induction false} DisconnectSilent(h: Heap, t: Ptr)
    requires Ok(h, {})
    ensures RunDisconnects(h, t).sent == h.sent
    decreases if t in h.dis then |h.dis[t]| else 0
  {
    hide Ok, Close;
    if t in h.dis && h.dis[t] != [] {
      CallbackUnlinks(h, t);
      EntryAllocated(h, t);
      match h.dis[t][0] {
        case OfSocket(p) =>
          EntryIsRemote(h, t);
          CloseSays(h, p);
        case OfListener(l) =>
      }
      DisconnectSilent(Callback(h, h.dis[t][0]), t);
    }
  }

  lemma EntryIsRemote(h: Heap, t: Ptr)
    requires Ok(h, {}) && t in h.dis && h.dis[t] != [] && h.dis[t][0].OfSocket?
    ensures h.dis[t][0].p in h.mem && h.mem[h.dis[t][0].p].kind == Remote && h.mem[h.dis[t][0].p].tr == t
  {
    assert h.dis[t][0] in h.dis[t] && NodeOk(h, h.dis[t][0], t);
  }

  // --- the farewells of close_all_sockets ---

  lemma {:induction false} ByesAppend(mem: map<Ptr, Sock>, a: seq<Ptr>, b: seq<Ptr>, t: Ptr)
    requires forall p :: p in a + b ==> p in mem
    ensures (forall p :: p in a ==> p in mem) && (forall p :: p in b ==> p in mem)
    ensures Byes(mem, a + b, t) == Byes(mem, a, t) + Byes(mem, b, t)
  {
    hide Bye, OnTransport;
    assert forall p :: p in a || p in b ==> p in a + b;
    if a == [] {
      assert a + b == b;
    } else {
      assert (a + b)[1..] == a[1..] + b;
      ByesAppend(mem, a[1..], b, t);
    }
  }

  lemma {:induction false} WithoutAppend<T>(a: seq<T>, b: seq<T>, x: T)
    ensures Without(a + b, x) == Without(a, x) + Without(b, x)
  {
    if a == [] {
      assert a + b == b;
    } else {
      assert (a + b)[1..] == a[1..] + b;
      WithoutAppend(a[1..], b, x);
    }
  }

  /** Sockets that t does not concern have no farewell. */
  lemma {:induction false} ByesNone(mem: map<Ptr, Sock>, list: seq<Ptr>, t: Ptr)
    requires forall p :: p in list ==> p in mem && !OnTransport(mem, p, t)
    ensures Byes(mem, list, t) == []
  {
    if list != [] { ByesNone(mem, list[1..], t); }
  }

  /** r is as it was, and so is what t and a farewell see of it. */
  predicate Kept(mem: map<Ptr, Sock>, mem': map<Ptr, Sock>, r: Ptr, t: Ptr)
    requires r in mem
  {
    r in mem' && OnTransport(mem', r, t) == OnTransport(mem, r, t) && Bye(mem', r) == Bye(mem, r)
  }

  /** What p's closing leaves of the farewells of other sockets. */
  lemma {:induction false} ByesLeft(mem: map<Ptr, Sock>, mem': map<Ptr, Sock>, list: seq<Ptr>, t: Ptr, p: Ptr, q: Ptr)
    requires p !in list
    requires forall r :: r in list ==> r in mem && (r != q ==> Kept(mem, mem', r, t)) && (r == q ==> Bye(mem, r) == [])
    ensures forall r :: r in Without(Without(list, q), p) ==> r in mem'
    ensures Byes(mem', Without(Without(list, q), p), t) == Byes(mem, list, t)
  {
    hide Bye, OnTransport;
    WithoutProps(list, q);
    WithoutProps(Without(list, q), p);
    if list != [] {
      assert list[0] in list && forall r :: r in list[1..] ==> r in list;
      ByesLeft(mem, mem', list[1..], t, p, q);
    }
  }

  lemma ClosingKeeps(h: Heap, p: Ptr, r: Ptr, t: Ptr)
    requires Ok(h, {}) && p in h.mem && r in h.mem && r != p && r != h.mem[p].peer
    ensures PeersOk(h.mem, {}) && Kept(h.mem, Close(h, p).mem, r, t)
  {
    hide ListsOk, IdsOk, DisOk, ListenersOk, Close, ClosedDis;
    CloseOk(h, p);
    PeersOfOk(h);
    assert PeerOk(h.mem, r, {}) && PeerOk(h.mem, p, {});
  }

  lemma OthersKept(h: Heap, t: Ptr, k: nat)
    requires Ok(h, {}) && k < |h.list| && h.list[k] in h.mem
    ensures PeersOk(h.mem, {})
    ensures forall r :: r in h.list[..k] || r in h.list[k + 1..] ==>
              && r in h.mem
              && (r != h.mem[h.list[k]].peer ==> Kept(h.mem, Close(h, h.list[k]).mem, r, t))
              && (r == h.mem[h.list[k]].peer ==> Bye(h.mem, r) == [])
  {
    hide Ok, Close, Bye, Kept;
    var p := h.list[k];
    PeersOfOk(h);
    PartsOfList(h, k);
    forall r | r in h.list[..k] || r in h.list[k + 1..]
      ensures r in h.mem && (r != h.mem[p].peer ==> Kept(h.mem, Close(h, p).mem, r, t))
      ensures r == h.mem[p].peer ==> Bye(h.mem, r) == []
    {
      if r == h.mem[p].peer { LocalPeerSilent(h, p); } else { ClosingKeeps(h, p, r, t); }
    }
  }

  /** Closing the first socket that t concerns takes its farewell off the front. */
  lemma ByesStep(h: Heap, t: Ptr, k: nat)
    requires Ok(h, {}) && ListedIn(h) && k < |h.list| && OnTransport(h.mem, h.list[k], t)
    requires forall j :: 0 <= j < k ==> !OnTransport(h.mem, h.list[j], t)
    ensures PeersOk(h.mem, {}) && ListedIn(Close(h, h.list[k]))
    ensures Byes(h.mem, h.list, t) == Bye(h.mem, h.list[k]) + Byes(Close(h, h.list[k]).mem, Close(h, h.list[k]).list, t)
  {
    hide Ok, Close, ClosedDis, Bye, Byes, OnTransport, Kept;
    var p, pre, post := h.list[k], h.list[..k], h.list[k + 1..];
    var q := h.mem[p].peer;
    PeersOfOk(h);
    var mem' := Close(h, p).mem;
    CloseOk(h, p);
    ListedAllocated(Close(h, p));
    PartsOfList(h, k);
    OthersKept(h, t, k);
    ByesLeft(h.mem, mem', pre, t, p, q);
    ByesLeft(h.mem, mem', post, t, p, q);
    ByesNone(h.mem, pre, t);
    WithoutParts(pre, p, post, q);
    ByesAppend(mem', Without(Without(pre, q), p), Without(Without(post, q), p), t);
    ByesAppend(h.mem, pre, [p] + post, t);
    ByesFirst(h.mem, p, post, t);
    assert pre + ([p] + post) == h.list;
  }

  lemma ByesFirst(mem: map<Ptr, Sock>, p: Ptr, post: seq<Ptr>, t: Ptr)
    requires p in mem && OnTransport(mem, p, t) && forall r :: r in post ==> r in mem
    ensures Byes(mem, [p] + post, t) == Bye(mem, p) + Byes(mem, post, t)
  {
    assert ([p] + post)[1..] == post;
  }

  lemma WithoutParts(pre: seq<Ptr>, p: Ptr, post: seq<Ptr>, q: Ptr)
    ensures Without(Without(pre + ([p] + post), q), p)
         == Without(Without(pre, q), p) + Without(Without(post, q), p)
  {
    WithoutAppend(pre, [p] + post, q);
    WithoutAppend([p], post, q);
    WithoutAppend(Without(pre, q), Without([p] + post, q), p);
    WithoutAppend(Without([p], q), Without(post, q), p);
    assert Without([p][1..], q) == [];
  }

  lemma PartsOfList(h: Heap, k: nat)
    requires Ok(h, {}) && k < |h.list|
    ensures h.list[k] !in h.list[..k] && h.list[k] !in h.list[k + 1..]
    ensures forall r :: r in h.list[..k] || r in h.list[k + 1..] ==> r in h.list && r in h.mem && r != 0
    ensures h.list == h.list[..k] + ([h.list[k]] + h.list[k + 1..])
    ensures h.list[k] in h.mem && h.mem[h.list[k]].kind == Local
  {
    ListedAllocated(h);
  }

  lemma LocalPeerSilent(h: Heap, p: Ptr)
    requires Ok(h, {}) && p in h.mem && h.mem[p].kind == Local && h.mem[p].peer in h.list
    ensures h.mem[p].peer in h.mem && Bye(h.mem, h.mem[p].peer) == []
  {
    ListedAllocated(h);
    assert PeerOk(h.mem, p, {});
  }

  lemma {:induction false} CloseAllSays(h: Heap, t: Ptr)
    requires Ok(h, {})
    ensures ListedIn(h) && CloseAll(h, t).sent == h.sent + Byes(h.mem, h.list, t)
    decreases |h.list|
  {
    hide Ok, Close, Bye, Byes, OnTransport;
    ListedAllocated(h);
    var k := FirstOn(h, t, 0);
    if k == |h.list| {
      ByesNone(h.mem, h.list, t);
      assert h.sent + [] == h.sent;
    } else {
      CloseShrinks(h, h.list[k], t);
      CloseSays(h, h.list[k]);
      ByesStep(h, t, k);
      CloseAllSays(Close(h, h.list[k]), t);
    }
  }

  /** Events that connect sockets or listeners say nothing but the answer to an A_OPEN. */
  lemma ConnectSays(h: Heap, ev: Event)
    requires Ok(h, {})
    requires ev.Accept? || ev.Forward? || ev.Choose? || ev.Request? || ev.RequestHost? || ev.Open? || ev.Ready? || ev.Unlisten?
    ensures ListedIn(h) && h.sent <= Step(h, ev).sent && Says(h, ev, Step(h, ev).sent[|h.sent|..])
  {
    hide Ok, Find;
    ListedAllocated(h);
  }

  /** The law of what is sent, for every event: exactly the packets of Says, after all that
      was sent before. */
  lemma SentLaw(h: Heap, ev: Event)
    requires Ok(h, {})
    ensures ListedIn(h) && h.sent <= Step(h, ev).sent && Says(h, ev, Step(h, ev).sent[|h.sent|..])
  {
    hide Ok, Close, CloseAll, RunDisconnects, HandleData, HandleWritable, EnqueueLocal;
    hide Find, Target, Install, Attach, SmartRemote, SmartHost;
    ListedAllocated(h);
    match ev
    case RequestFails(s) => if s in h.mem { CloseSays(h, s); }
    case CloseMsg(t, x, y) => CloseMsgSays(h, t, x, y);
    case Data(t, x, y, blocks, fails) => DataSays(h, t, x, y, blocks, fails);
    case Writable(p, done, fails) =>
      if p in h.mem && h.mem[p].kind == Local && h.mem[p].queued > 0 { WritableSays(h, p, done, fails); }
    case Feed(p, blocks, fails) =>
      if LocalPair(h.mem, p) {
        LocalPairPeer(h, p);
        EnqueueSays(h, h.mem[p].peer, blocks, fails);
      }
    case Eof(p) => if p in h.mem { CloseSays(h, p); }
    case Offline(t) => DisconnectSilent(h, t);
    case InputEnds(t) => CloseAllSays(h, t);
    case Listen(name, connectTo, t, noRebind, l) => InstallSilent(h, name, connectTo, t, noRebind, l);
    case _ => ConnectSays(h, ev);
  }

  lemma InstallSilent(h: Heap, name: string, connectTo: string, t: Ptr, noRebind: bool, l: Ptr)
    requires Ok(h, {})
    ensures var h' := Install(h, name, connectTo, t, noRebind, l).0; h'.sent == h.sent && h'.mem == h.mem
  {
    hide PeersOk, ListsOk, IdsOk, DisOk;
  }

  // --- the sockets that change ---

  /** A socket stays after its close only to write what it has queued. */
  predicate Lingers(s: Sock)
  {
    s.kind == Local && s.queued > 0 && !s.closing
  }

  /** One socket that was closed: off the list, and freed or on the closing list. */
  ghost predicate Left(h: Heap, h': Heap, p: Ptr)
    requires p in h.mem
  {
    && p !in h'.list && (p in h'.mem <==> Lingers(h.mem[p]))
    && (p in h'.mem ==> p in h'.closing && h'.mem[p] == h.mem[p].(peer := 0, id := 0, closing := true))
  }

  /** p and its peer were closed, and nothing else changed. */
  ghost predicate Gone(h: Heap, h': Heap, p: Ptr)
    requires p in h.mem
  {
    && Left(h, h', p) && (h.mem[p].peer in h.mem ==> Left(h, h', h.mem[p].peer))
    && (forall r :: r in h'.mem ==> r in h.mem)
    && (forall r :: r in h.mem && r != p && r != h.mem[p].peer ==> r in h'.mem && h'.mem[r] == h.mem[r])
  }

  lemma LoneLeft(h: Heap, p: Ptr)
    requires p in h.mem && h.mem[p].peer == 0 && (h.mem[p].kind != Local ==> p !in h.list)
    ensures Left(h, CloseLone(h, p), p)
  {
    WithoutProps(h.list, p);
  }

  /** It stays off the list when another is closed after it. */
  lemma LeftStays(h: Heap, h1: Heap, q: Ptr, p: Ptr)
    requires q in h.mem && p in h1.mem && p != q && Left(h, h1, q)
    ensures Left(h, CloseLone(h1, p), q)
  {
    hide CloseLone, Lingers;
    LoneOthers(h1, p, q);
  }

  lemma LoneOthers(h: Heap, p: Ptr, q: Ptr)
    requires p in h.mem && p != q
    ensures var h' := CloseLone(h, p);
            && (q in h'.mem <==> q in h.mem) && (q in h.mem ==> h'.mem[q] == h.mem[q])
            && (q in h'.list <==> q in h.list) && (q in h'.closing <==> q in h.closing)
  {
    hide Without;
    WithoutProps(h.list, p);
    WithoutProps(h.closing, p);
  }

  lemma PairLeft(h: Heap, p: Ptr, q: Ptr)
    requires p in h.mem && q in h.mem && p != q
    requires (h.mem[p].kind != Local ==> p !in h.list) && (h.mem[q].kind != Local ==> q !in h.list)
    ensures var h' := CloseLone(CloseLone(Part(h, p, q), q), p); Left(h, h', p) && Left(h, h', q)
  {
    var h1 := Part(h, p, q);
    var h2 := CloseLone(h1, q);
    LoneLeft(h1, q);
    WithoutProps(h1.list, q);
    LoneLeft(h2, p);
    LeftStays(h, h2, q, p);
  }

  lemma OnlyLocalsListed(h: Heap, p: Ptr)
    requires Ok(h, {}) && p in h.mem
    ensures h.mem[p].kind != Local ==> p !in h.list
    ensures h.mem[p].peer != 0 ==> h.mem[p].peer in h.mem && h.mem[p].peer != p
    ensures 0 !in h.mem
  {
    assert PeerOk(h.mem, p, {});
  }

  lemma CloseGone(h: Heap, p: Ptr)
    requires Ok(h, {}) && p in h.mem
    ensures PeersOk(h.mem, {}) && Gone(h, Close(h, p), p)
  {
    hide Ok, PeersOk, ClosedDis, CloseLone, Part, Left;
    PeersOfOk(h);
    CloseOk(h, p);
    OnlyLocalsListed(h, p);
    var q := h.mem[p].peer;
    if q == 0 {
      LoneLeft(h, p);
    } else {
      OnlyLocalsListed(h, q);
      PairLeft(Goodbye(h, p), p, q);
      LeftSent(h, Goodbye(h, p), Close(h, p), p);
      LeftSent(h, Goodbye(h, p), Close(h, p), q);
    }
  }

  lemma LeftSent(h: Heap, h1: Heap, h': Heap, p: Ptr)
    requires p in h.mem && h1 == h.(sent := h1.sent) && Left(h1, h', p)
    ensures Left(h, h', p)
  {
  }

  /** The sockets after an event. */
  ghost predicate Moved(h: Heap, ev: Event, h': Heap)
  {
    match ev
    case Accept(p, s) =>
      h'.mem == if h.nextId < MAX_ID && Fresh(h, p) && Fresh(h, s) && p != s
                then h.mem[p := Sock(Local, h.nextId, false, s, 0, 0)][s := Sock(Smart, 0, false, p, 0, 0)]
                else h.mem
    case Forward(p, t) =>
      h'.mem == if h.nextId < MAX_ID && Fresh(h, p) then h.mem[p := Sock(Local, h.nextId, false, 0, t, 0)] else h.mem
    case Choose(s, t) =>
      h'.mem == if s in h.mem && h.mem[s].kind == Smart then h.mem[s := h.mem[s].(tr := t)] else h.mem
    case Request(s, t) =>
      if s in h.mem && h.mem[s].kind == Smart then
        && s !in h'.mem && h.mem[s].peer in h.mem
        && h'.mem == (h.mem - {s})[h.mem[s].peer := h.mem[h.mem[s].peer].(
                       peer := 0, tr := if h.mem[s].tr != 0 then h.mem[s].tr else t)]
      else h'.mem == h.mem
    case RequestHost(s, s2) =>
      if s in h.mem && h.mem[s].kind == Smart && h.nextId < MAX_ID && Fresh(h, s2) then
        && s !in h'.mem && h.mem[s].peer in h.mem
        && h'.mem == (h.mem - {s})[h.mem[s].peer := h.mem[h.mem[s].peer].(peer := s2)]
                       [s2 := Sock(Local, h.nextId, false, h.mem[s].peer, 0, 0)]
      else h'.mem == h.mem
    case RequestFails(s) => if s in h.mem && h.mem[s].kind == Smart then Gone(h, h', s) else h'.mem == h.mem
    case Open(t, x, found, p, q) =>
      h'.mem == if x != 0 && t != 0 && found && h.nextId < MAX_ID && Fresh(h, p) && Fresh(h, q) && p != q
                then h.mem[p := Sock(Local, h.nextId, false, q, 0, 0)][q := Sock(Remote, x, false, p, t, 0)]
                else h.mem
    case Ready(t, x, y, q) =>
      && (forall s :: Target(h, s, y, 0) && x != 0 && y != 0 && t != 0 && Fresh(h, q) && h.mem[s].peer == 0 ==>
            h'.mem == h.mem[s := h.mem[s].(peer := q)][q := Sock(Remote, x, false, s, t, 0)])
      && (x == 0 || y == 0 || (forall s :: Target(h, s, y, 0) ==> h.mem[s].peer != 0) ==> h'.mem == h.mem)
    case CloseMsg(t, x, y) =>
      && (forall s :: Target(h, s, y, x) && y != 0 && (x != 0 || h.mem[s].peer !in h.mem || h.mem[h.mem[s].peer].tr == t) ==>
            Gone(h, h', s))
      && (y == 0 || (forall s :: !Target(h, s, y, x)) ==> h'.mem == h.mem)
      && (forall s :: Target(h, s, y, x) && x == 0 && h.mem[s].peer in h.mem && h.mem[h.mem[s].peer].tr != t ==> h'.mem == h.mem)
    case Data(t, x, y, blocks, fails) =>
      && (forall s :: Target(h, s, y, x) && x != 0 && y != 0 ==> Enqueued(h, h', s, blocks, fails))
      && (x == 0 || y == 0 || (forall s :: !Target(h, s, y, x)) ==> h'.mem == h.mem)
    case Feed(p, blocks, fails) =>
      if LocalPair(h.mem, p) then Enqueued(h, h', h.mem[p].peer, blocks, fails) else h'.mem == h.mem
    case Writable(p, done, fails) =>
      if p !in h.mem || h.mem[p].kind != Local || h.mem[p].queued == 0 then h'.mem == h.mem
      else if fails || (done && h.mem[p].closing) then Gone(h, h', p)
      else h'.mem == if done then h.mem[p := h.mem[p].(queued := 0)] else h.mem
    case Eof(p) => if p in h.mem && h.mem[p].kind == Local then Gone(h, h', p) else h'.mem == h.mem
    case Offline(t) => Untouched(h.mem, h'.mem, t) && forall p :: p in h'.mem && h'.mem[p].kind == Remote ==> h'.mem[p].tr != t
    case InputEnds(t) => Untouched(h.mem, h'.mem, t) && forall p :: p in h'.list ==> p in h'.mem && !OnTransport(h'.mem, p, t)
    case Listen(_, _, _, _, _) => h'.mem == h.mem
    case Unlisten(l) => h'.mem == h.mem && l !in h'.lmem
  }

  /** A packet was handed to the socket s: queued behind others, the socket closed, queued
      because the descriptor blocks, or written. */
  ghost predicate Enqueued(h: Heap, h': Heap, s: Ptr, blocks: bool, fails: bool)
    requires s in h.mem
  {
    if h.mem[s].queued == 0 && fails then Gone(h, h', s)
    else if h.mem[s].queued > 0 then h'.mem == h.mem[s := h.mem[s].(queued := h.mem[s].queued + 1)]
    else h'.mem == if blocks then h.mem[s := h.mem[s].(queued := 1)] else h.mem
  }

  lemma EnqueueMoves(h: Heap, s: Ptr, blocks: bool, fails: bool)
    requires Ok(h, {}) && s in h.mem
    ensures PeersOk(h.mem, {}) && Enqueued(h, EnqueueLocal(h, s, blocks, fails).0, s, blocks, fails)
  {
    hide Ok, Close, Gone;
    CloseGone(h, s);
  }

  lemma DataMoves(h: Heap, t: Ptr, x: nat, y: nat, blocks: bool, fails: bool)
    requires Ok(h, {})
    ensures Moved(h, Data(t, x, y, blocks, fails), HandleData(h, t, x, y, blocks, fails))
  {
    hide Ok, EnqueueLocal, Find, Target, Gone;
    FindNone(h, y, x);
    var s := Find(h, y, x);
    if x != 0 && y != 0 && s != 0 {
      EnqueueMoves(h, s, blocks, fails);
      SentSame(h, EnqueueLocal(h, s, blocks, fails).0, HandleData(h, t, x, y, blocks, fails), s);
      forall r | Target(h, r, y, x) ensures r == s { TargetsAgree(h, y, x, r); }
    }
  }

  lemma SentSame(h: Heap, h1: Heap, h2: Heap, s: Ptr)
    requires s in h.mem && h2 == h1.(sent := h2.sent)
    ensures Gone(h, h1, s) ==> Gone(h, h2, s)
  {
  }

  lemma CloseMsgMoves(h: Heap, t: Ptr, x: nat, y: nat)
    requires Ok(h, {})
    ensures Moved(h, CloseMsg(t, x, y), Step(h, CloseMsg(t, x, y)))
  {
    hide Ok, Close, Find, Target, Gone;
    FindNone(h, y, x);
    var s := Find(h, y, x);
    if y != 0 && s != 0 {
      CloseGone(h, s);
      forall r | Target(h, r, y, x) ensures r == s { TargetsAgree(h, y, x, r); }
    }
  }

  lemma ReadyMoves(h: Heap, t: Ptr, x: nat, y: nat, q: Ptr)
    requires Ok(h, {})
    ensures Moved(h, Ready(t, x, y, q), Step(h, Ready(t, x, y, q)))
  {
    hide Ok, Find, Target;
    FindNone(h, y, 0);
    var s := Find(h, y, 0);
    forall r | Target(h, r, y, 0) ensures r == s && r in h.mem { TargetsAgree(h, y, 0, r); }
    if s != 0 { FindIff(h, y, 0, s); }
  }

  /** run_transport_disconnects spares what the transport does not concern. */
  lemma {:induction false} DisconnectSpares(h: Heap, t: Ptr)
    requires Ok(h, {})
    ensures Untouched(h.mem, RunDisconnects(h, t).mem, t)
    decreases if t in h.dis then |h.dis[t]| else 0
  {
    hide Ok, Close, Untouched;
    if t !in h.dis || h.dis[t] == [] {
      UntouchedSame(h.mem, t);
    } else {
      CallbackUnlinks(h, t);
      EntryAllocated(h, t);
      var h1 := Callback(h, h.dis[t][0]);
      match h.dis[t][0] {
        case OfSocket(p) =>
          EntryIsRemote(h, t);
          CloseUntouched(h, p, t);
        case OfListener(l) => UntouchedSame(h.mem, t);
      }
      DisconnectSpares(h1, t);
      UntouchedTrans(h.mem, h1.mem, RunDisconnects(h1, t).mem, t);
    }
  }

  lemma UntouchedSame(mem: map<Ptr, Sock>, t: Ptr)
    ensures Untouched(mem, mem, t)
  {
  }

  lemma UntouchedTrans(a: map<Ptr, Sock>, b: map<Ptr, Sock>, c: map<Ptr, Sock>, t: Ptr)
    requires Untouched(a, b, t) && Untouched(b, c, t)
    ensures Untouched(a, c, t)
  {
  }

  lemma CloseUntouched(h: Heap, p: Ptr, t: Ptr)
    requires Ok(h, {}) && p in h.mem && h.mem[p].tr == t
    ensures PeersOk(h.mem, {}) && Untouched(h.mem, Close(h, p).mem, t)
  {
    hide ListsOk, IdsOk, DisOk, ListenersOk, Close, ClosedDis;
    PeersOfOk(h);
    CloseOk(h, p);
    assert PeerOk(h.mem, p, {});
    forall r | r in h.mem && !OnTransport(h.mem, r, t)
      ensures r in Close(h, p).mem && Close(h, p).mem[r] == h.mem[r] && !OnTransport(Close(h, p).mem, r, t)
    {
      assert PeerOk(h.mem, r, {});
    }
  }

  lemma ConnectMoves(h: Heap, ev: Event)
    requires Ok(h, {}) && (ev.Accept? || ev.Forward? || ev.Choose? || ev.Open? || ev.Unlisten?)
    ensures Moved(h, ev, Step(h, ev))
  {
    hide Ok;
  }

  /** Requests to a smart socket. */
  lemma RequestMoves(h: Heap, ev: Event)
    requires Ok(h, {}) && (ev.Request? || ev.RequestHost?)
    ensures Moved(h, ev, Step(h, ev))
  {
    hide ListsOk, IdsOk, DisOk, ListenersOk;
    if ev.s in h.mem { assert PeerOk(h.mem, ev.s, {}); }
  }

  /** The law of what changes, for every event. */
  lemma StepLaw(h: Heap, ev: Event)
    requires Ok(h, {})
    ensures Moved(h, ev, Step(h, ev))
  {
    hide Ok, Close, CloseAll, RunDisconnects, HandleData, EnqueueLocal;
    hide Find, Target, Install, Gone, Attach, SmartRemote, SmartHost, FreeListener;
    match ev
    case Request(_, _) => RequestMoves(h, ev);
    case RequestHost(_, _) => RequestMoves(h, ev);
    case RequestFails(s) => if s in h.mem { CloseGone(h, s); }
    case Ready(t, x, y, q) => ReadyMoves(h, t, x, y, q);
    case CloseMsg(t, x, y) => CloseMsgMoves(h, t, x, y);
    case Data(t, x, y, blocks, fails) => DataMoves(h, t, x, y, blocks, fails);
    case Feed(p, blocks, fails) =>
      if LocalPair(h.mem, p) {
        LocalPairPeer(h, p);
        EnqueueMoves(h, h.mem[p].peer, blocks, fails);
      }
    case Writable(p, done, fails) => if p in h.mem { CloseGone(h, p); }
    case Eof(p) => if p in h.mem { CloseGone(h, p); }
    case Offline(t) =>
      DisconnectSpares(h, t);
      DisconnectedIsUnreferenced(h, t);
    case InputEnds(t) =>
    case Listen(name, connectTo, t, noRebind, l) => InstallSilent(h, name, connectTo, t, noRebind, l);
    case _ => ConnectMoves(h, ev);
  }

  /** Both laws, at every point of every run. */
  lemma RunLaw(evs: seq<Event>, ev: Event)
    ensures var h, h' := Run(evs), Run(evs + [ev]);
            && Moved(h, ev, h')
            && ListedIn(h) && h.sent <= h'.sent && Says(h, ev, h'.sent[|h.sent|..])
  {
    hide Run, Step, Ok, Moved, Says;
    RunSnoc(evs, ev);
    SentLaw(Run(evs), ev);
    StepLaw(Run(evs), ev);
  }
}
