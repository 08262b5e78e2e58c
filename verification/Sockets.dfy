/** The sockets and listeners of one adb process: asocket objects that point at each other,
    two lists of local sockets, and for each transport a list of what to tear down with it.
    Addresses are numbers and 0 is the null pointer; `mem` and `lmem` hold what is
    allocated, so a lookup is also a proof that the pointer does not dangle. */
module Sockets {
  import opened Lists

  type Ptr = nat

  datatype Kind = Local | Remote | Smart

  /** An asocket.  `queued` is the number of packets waiting to be written to its descriptor. */
  datatype Sock = Sock(kind: Kind, id: nat, closing: bool, peer: Ptr, tr: Ptr, queued: nat)

  /** An alistener. */
  datatype Lsn = Lsn(name: string, connectTo: string, tr: Ptr)

  /** An entry of a transport's disconnect list. */
  datatype Node = OfSocket(p: Ptr) | OfListener(l: Ptr)

  /** A packet handed to a transport. */
  datatype Packet = Okay(tr: Ptr, arg0: nat, arg1: nat) | Clse(tr: Ptr, arg0: nat, arg1: nat)

  /** list: local_socket_list; closing: local_socket_closing_list; dis: t->disconnects;
      listeners: listener_list. */
  datatype Heap = Heap(mem: map<Ptr, Sock>, list: seq<Ptr>, closing: seq<Ptr>, nextId: nat,
                       dis: map<Ptr, seq<Node>>, lmem: map<Ptr, Lsn>, listeners: seq<Ptr>,
                       sent: seq<Packet>)

  const MAX_ID: nat := 0xffff_ffff

  /** A listener of this kind is for smart sockets: it is never rebound, and stays when all
      listeners are removed. */
  predicate Star(s: string)
  {
    s != "" && s[0] == '*'
  }

  // --- what every operation keeps ---

  /** Peers point at each other, and a socket with packets to write has a peer to tell when
      they are written.  An orphan has lost its peer and is about to be closed. */
  predicate PeerOk(mem: map<Ptr, Sock>, p: Ptr, orphans: set<Ptr>)
    requires p in mem
  {
    var s := mem[p];
    && (s.peer != 0 ==> s.peer in mem && s.peer != p && mem[s.peer].peer == p)
    && (if p in orphans then s.peer == 0
        else if s.kind == Local then
          s.queued > 0 && !s.closing ==> s.peer != 0 && mem[s.peer].kind != Smart
        else
          s.peer != 0 && mem[s.peer].kind == Local && (s.kind == Smart ==> s.id == 0))
  }

  predicate PeersOk(mem: map<Ptr, Sock>, orphans: set<Ptr>)
  {
    0 !in mem && forall p {:trigger PeerOk(mem, p, orphans)} :: p in mem ==> PeerOk(mem, p, orphans)
  }

  /** A listed socket has an id of its own; a closing one has none, and no peer. */
  predicate LocalOk(h: Heap, p: Ptr)
    requires p in h.mem
  {
    var s := h.mem[p];
    s.kind == Local ==>
      if s.closing then p in h.closing && s.id == 0 && s.peer == 0 && s.queued > 0
      else p in h.list && 0 < s.id < h.nextId
  }

  predicate ListsOk(h: Heap)
  {
    && 0 < h.nextId && NoDup(h.list) && NoDup(h.closing)
    && (forall p {:trigger LocalOk(h, p)} :: p in h.mem ==> LocalOk(h, p))
    && (forall p :: p in h.list ==> p in h.mem && h.mem[p].kind == Local && !h.mem[p].closing)
    && (forall p :: p in h.closing ==> p in h.mem && h.mem[p].kind == Local && h.mem[p].closing)
  }

  predicate IdsOk(h: Heap)
    requires ListsOk(h)
  {
    forall p, q | p in h.list && q in h.list :: p != q ==> h.mem[p].id != h.mem[q].id
  }

  predicate NodeOk(h: Heap, n: Node, t: Ptr)
  {
    match n
    case OfSocket(p) => p in h.mem && h.mem[p].kind == Remote && h.mem[p].tr == t
    case OfListener(l) => l in h.lmem && h.lmem[l].tr == t
  }

  /** A transport's list holds exactly its remote sockets and listeners, each once. */
  predicate DisOk(h: Heap)
  {
    && (forall t :: t in h.dis ==> t != 0 && NoDup(h.dis[t]))
    && (forall t, n {:trigger NodeOk(h, n, t)} :: t in h.dis && n in h.dis[t] ==> NodeOk(h, n, t))
    && (forall p :: p in h.mem && h.mem[p].kind == Remote ==>
          h.mem[p].id != 0 && h.mem[p].tr in h.dis && OfSocket(p) in h.dis[h.mem[p].tr])
    && (forall l :: l in h.lmem && h.lmem[l].tr != 0 ==> h.lmem[l].tr in h.dis && OfListener(l) in h.dis[h.lmem[l].tr])
  }

  /** At most one listener per local name. */
  ghost predicate ListenersOk(h: Heap)
  {
    && NoDup(h.listeners) && 0 !in h.lmem
    && (forall l :: l in h.listeners <==> l in h.lmem)
    && (forall l, k | l in h.lmem && k in h.lmem :: l != k ==> h.lmem[l].name != h.lmem[k].name)
  }

  ghost predicate Ok(h: Heap, orphans: set<Ptr>)
  {
    PeersOk(h.mem, orphans) && ListsOk(h) && IdsOk(h) && DisOk(h) && ListenersOk(h)
  }

  // --- closing sockets ---

  /** local_socket_close when the peer is gone: destroyed, or moved to the closing list if
      there are packets to write. */
  function CloseLocal(h: Heap, p: Ptr): (h': Heap)
    requires p in h.mem
  {
    var s := h.mem[p];
    if s.closing || s.queued == 0 then
      h.(mem := h.mem - {p}, list := Without(h.list, p), closing := Without(h.closing, p))
    else
      h.(mem := h.mem[p := s.(closing := true, id := 0)], list := Without(h.list, p), closing := h.closing + [p])
  }

  function Unregister(dis: map<Ptr, seq<Node>>, t: Ptr, n: Node): (dis': map<Ptr, seq<Node>>)
  {
    if t in dis then dis[t := Without(dis[t], n)] else dis
  }

  /** remote_socket_close when the peer is gone. */
  function FreeRemote(h: Heap, p: Ptr): (h': Heap)
    requires p in h.mem
  {
    h.(mem := h.mem - {p}, dis := Unregister(h.dis, h.mem[p].tr, OfSocket(p)))
  }

  /** s->close(s) for a socket whose peer is gone. */
  function CloseLone(h: Heap, p: Ptr): (h': Heap)
    requires p in h.mem
  {
    match h.mem[p].kind
    case Local => CloseLocal(h, p)
    case Remote => FreeRemote(h, p)
    case Smart => h.(mem := h.mem - {p})
  }

  /** Two peers forget each other. */
  function Part(h: Heap, p: Ptr, q: Ptr): (h': Heap)
    requires p in h.mem && q in h.mem
  {
    h.(mem := h.mem[p := h.mem[p].(peer := 0)][q := h.mem[q].(peer := 0)])
  }

  /** The A_CLSE that remote_socket_shutdown sends when its local peer closes. */
  function Goodbye(h: Heap, p: Ptr): (h': Heap)
    requires p in h.mem
  {
    var q := h.mem[p].peer;
    if h.mem[p].kind == Local && q in h.mem && h.mem[q].kind == Remote then
      h.(sent := h.sent + [Clse(h.mem[q].tr, h.mem[p].id, h.mem[q].id)])
    else h
  }

  /** s->close(s): the peer is closed first, then the socket. */
  function Close(h: Heap, p: Ptr): (h': Heap)
    requires p in h.mem && PeersOk(h.mem, {})
  {
    var q := h.mem[p].peer;
    if q == 0 then CloseLone(h, p)
    else
      assert PeerOk(h.mem, p, {});
      CloseLone(CloseLone(Part(Goodbye(h, p), p, q), q), p)
  }

  /** What closing p leaves alone: every other socket. */
  ghost predicate OnlyGone(mem: map<Ptr, Sock>, mem': map<Ptr, Sock>, p: Ptr)
  {
    forall q :: q != p ==> (q in mem' <==> q in mem) && (q in mem ==> mem'[q] == mem[q])
  }

  lemma PeersGone(mem: map<Ptr, Sock>, mem': map<Ptr, Sock>, p: Ptr, orphans: set<Ptr>)
    requires PeersOk(mem, orphans) && p in mem && mem[p].peer == 0 && OnlyGone(mem, mem', p)
    requires p in mem' ==> mem'[p].peer == 0 && mem'[p].kind == Local && mem'[p].closing
    ensures PeersOk(mem', orphans - {p})
  {
    forall q | q in mem' ensures PeerOk(mem', q, orphans - {p}) {
      if q != p { assert PeerOk(mem, q, orphans); }
    }
  }

  lemma ListsGone(h: Heap, p: Ptr)
    requires ListsOk(h) && IdsOk(h) && p in h.mem
    requires h.mem[p].kind == Local && h.mem[p].peer == 0
    ensures ListsOk(CloseLocal(h, p)) && IdsOk(CloseLocal(h, p))
  {
    var h' := CloseLocal(h, p);
    WithoutProps(h.list, p);
    WithoutProps(h.closing, p);
    assert LocalOk(h, p);
    forall q | q in h'.mem ensures LocalOk(h', q) { assert LocalOk(h, q); }
  }

  lemma UnregisterProps(dis: map<Ptr, seq<Node>>, t: Ptr, n: Node)
    ensures var d := Unregister(dis, t, n);
            && d.Keys == dis.Keys
            && (forall u :: u in d && NoDup(dis[u]) ==> NoDup(d[u]))
            && (forall u, m | u in d :: m in d[u] <==> m in dis[u] && !(u == t && m == n))
  {
    if t in dis { WithoutProps(dis[t], n); }
  }

  lemma DisGoneRemote(h: Heap, p: Ptr)
    requires DisOk(h) && p in h.mem && h.mem[p].kind == Remote
    ensures DisOk(FreeRemote(h, p))
  {
    UnregisterProps(h.dis, h.mem[p].tr, OfSocket(p));
    var h' := FreeRemote(h, p);
    forall t, n | t in h'.dis && n in h'.dis[t] ensures NodeOk(h', n, t) {
      assert NodeOk(h, n, t);
    }
  }

  /** Sockets that are not remote are on no disconnect list. */
  lemma DisSame(h: Heap, h': Heap, p: Ptr)
    requires DisOk(h) && OnlyGone(h.mem, h'.mem, p) && h'.dis == h.dis && h'.lmem == h.lmem
    requires p in h.mem ==> h.mem[p].kind != Remote
    requires p in h'.mem ==> h'.mem[p].kind != Remote
    ensures DisOk(h')
  {
    forall t, n | t in h'.dis && n in h'.dis[t] ensures NodeOk(h', n, t) {
      assert NodeOk(h, n, t);
    }
  }

  lemma ListsSame(h: Heap, h': Heap, p: Ptr)
    requires ListsOk(h) && IdsOk(h) && OnlyGone(h.mem, h'.mem, p)
    requires h'.list == h.list && h'.closing == h.closing && h'.nextId == h.nextId
    requires p in h.mem ==> h.mem[p].kind != Local
    requires p in h'.mem ==> h'.mem[p].kind != Local
    ensures ListsOk(h') && IdsOk(h')
  {
    forall q | q in h'.mem ensures LocalOk(h', q) { if q != p { assert LocalOk(h, q); } }
  }

  /** Closing a socket that has no peer. */
  lemma CloseLoneOk(h: Heap, p: Ptr, orphans: set<Ptr>)
    requires Ok(h, orphans) && p in h.mem && h.mem[p].peer == 0
    ensures Ok(CloseLone(h, p), orphans - {p})
    ensures OnlyGone(h.mem, CloseLone(h, p).mem, p)
    ensures CloseLone(h, p).list == Without(h.list, p)
    ensures CloseLone(h, p) == h.(mem := CloseLone(h, p).mem, list := CloseLone(h, p).list,
                                  closing := CloseLone(h, p).closing, dis := CloseLone(h, p).dis)
  {
    var h' := CloseLone(h, p);
    assert PeerOk(h.mem, p, orphans);
    PeersGone(h.mem, h'.mem, p, orphans);
    WithoutProps(h.list, p);
    match h.mem[p].kind
    case Local => ListsGone(h, p); DisSame(h, h', p);
    case Remote => DisGoneRemote(h, p); ListsSame(h, h', p);
    case Smart => DisSame(h, h', p); ListsSame(h, h', p);
  }

  /** Two sockets differ from what they were only in their peer. */
  predicate OnlyPeers(mem: map<Ptr, Sock>, mem': map<Ptr, Sock>)
  {
    mem'.Keys == mem.Keys && forall p :: p in mem ==> mem'[p] == mem[p].(peer := mem'[p].peer)
  }

  lemma OnlyPeersOk(h: Heap, mem: map<Ptr, Sock>)
    requires ListsOk(h) && IdsOk(h) && DisOk(h) && OnlyPeers(h.mem, mem)
    requires forall p :: p in mem && mem[p].kind == Local && mem[p].closing ==> mem[p].peer == 0
    ensures ListsOk(h.(mem := mem)) && IdsOk(h.(mem := mem)) && DisOk(h.(mem := mem))
  {
    var h' := h.(mem := mem);
    forall q | q in h'.mem ensures LocalOk(h', q) { assert LocalOk(h, q); }
    forall t, n | t in h'.dis && n in h'.dis[t] ensures NodeOk(h', n, t) { assert NodeOk(h, n, t); }
  }

  lemma PartPeers(mem: map<Ptr, Sock>, p: Ptr)
    requires PeersOk(mem, {}) && p in mem && mem[p].peer != 0
    ensures var q := mem[p].peer;
            && q in mem && p != q
            && PeersOk(mem[p := mem[p].(peer := 0)][q := mem[q].(peer := 0)], {p, q})
  {
    var q := mem[p].peer;
    assert PeerOk(mem, p, {});
    var mem' := mem[p := mem[p].(peer := 0)][q := mem[q].(peer := 0)];
    forall r | r in mem' ensures PeerOk(mem', r, {p, q}) { assert PeerOk(mem, r, {}); }
  }

  lemma PartOk(h: Heap, p: Ptr)
    requires Ok(h, {}) && p in h.mem && h.mem[p].peer != 0
    ensures var q := h.mem[p].peer; q in h.mem && p != q && Ok(Part(h, p, q), {p, q})
  {
    PartPeers(h.mem, p);
    var h' := Part(h, p, h.mem[p].peer);
    forall r | r in h'.mem && h'.mem[r].kind == Local && h'.mem[r].closing ensures h'.mem[r].peer == 0 {
      assert LocalOk(h, r);
    }
    OnlyPeersOk(h, h'.mem);
  }

  /** What s->close(s) does to everything else: other sockets and all listeners stay as they
      are, */
  ghost predicate Closed(h: Heap, h': Heap, p: Ptr)
    requires p in h.mem
  {
    var q := h.mem[p].peer;
    && (forall r :: r in h'.mem ==> r in h.mem)
    && (forall r :: r in h.mem && r != p && r != q ==> r in h'.mem && h'.mem[r] == h.mem[r])
    && h'.list == Without(Without(h.list, q), p)
    && h'.lmem == h.lmem && h'.listeners == h.listeners && h'.nextId == h.nextId
  }

  /** and so do the other entries of the disconnect lists. */
  ghost predicate ClosedDis(h: Heap, h': Heap, p: Ptr)
    requires p in h.mem
  {
    && h'.dis.Keys == h.dis.Keys
    && forall t | t in h.dis ::
         h'.dis[t] == if h.mem[p].kind == Remote && h.mem[p].tr == t then Without(h.dis[t], OfSocket(p))
                      else if h.mem[p].peer in h.mem && h.mem[h.mem[p].peer].kind == Remote && h.mem[h.mem[p].peer].tr == t
                      then Without(h.dis[t], OfSocket(h.mem[p].peer))
                      else h.dis[t]
  }

  lemma GoodbyeOk(h: Heap, p: Ptr)
    requires Ok(h, {}) && p in h.mem
    ensures Ok(Goodbye(h, p), {})
  {
    SentOk(h, Goodbye(h, p).sent, {});
  }

  /** Closing two sockets that have parted, the second one first. */
  lemma CloseTwo(h: Heap, p: Ptr, q: Ptr)
    requires Ok(h, {p, q}) && p in h.mem && q in h.mem && p != q
    requires h.mem[p].peer == 0 && h.mem[q].peer == 0
    ensures var h1 := CloseLone(h, q);
            && p in h1.mem && Ok(CloseLone(h1, p), {})
            && CloseLone(h1, p).list == Without(Without(h.list, q), p)
            && (forall r :: r in CloseLone(h1, p).mem ==> r in h.mem)
            && (forall r :: r in h.mem && r != p && r != q ==> r in CloseLone(h1, p).mem && CloseLone(h1, p).mem[r] == h.mem[r])
            && CloseLone(h1, p).lmem == h.lmem && CloseLone(h1, p).listeners == h.listeners
            && CloseLone(h1, p).nextId == h.nextId
  {
    hide Ok, CloseLone;
    CloseLoneOk(h, q, {p, q});
    var h1 := CloseLone(h, q);
    assert {p, q} - {q} == {p};
    CloseLoneOk(h1, p, {p});
    assert {p} - {p} == {};
  }

  lemma NullNotListed(h: Heap)
    requires Ok(h, {})
    ensures Without(h.list, 0) == h.list
  {
    assert 0 !in h.list;
    WithoutProps(h.list, 0);
  }

  lemma ClosePair(h: Heap, p: Ptr)
    requires Ok(h, {}) && p in h.mem && h.mem[p].peer != 0
    ensures Ok(Close(h, p), {}) && Closed(h, Close(h, p), p)
  {
    hide PeersOk, ListsOk, IdsOk, DisOk, ListenersOk, CloseLone;
    var q := h.mem[p].peer;
    GoodbyeOk(h, p);
    PartOk(Goodbye(h, p), p);
    CloseTwo(Part(Goodbye(h, p), p, q), p, q);
  }

  lemma CloseAlone(h: Heap, p: Ptr)
    requires Ok(h, {}) && p in h.mem && h.mem[p].peer == 0
    ensures Ok(Close(h, p), {}) && Closed(h, Close(h, p), p)
  {
    hide ListsOk, IdsOk, DisOk, ListenersOk;
    CloseLoneOk(h, p, {});
    NullNotListed(h);
    assert {} - {p} == {};
  }

  /** s->close(s) leaves no dangling pointer and takes the socket and its peer off the list. */
  lemma CloseOk(h: Heap, p: Ptr)
    requires Ok(h, {}) && p in h.mem
    ensures Ok(Close(h, p), {})
    ensures Closed(h, Close(h, p), p)
    ensures ClosedDis(h, Close(h, p), p)
  {
    hide Ok, Close, Closed, ClosedDis, PeersOk;
    PeersOfOk(h);
    CloseDis(h, p);
    if h.mem[p].peer == 0 { CloseAlone(h, p); } else { ClosePair(h, p); }
  }

  lemma PeersOfOk(h: Heap)
    requires Ok(h, {})
    ensures PeersOk(h.mem, {})
  {
  }

  lemma CloseDis(h: Heap, p: Ptr)
    requires PeersOk(h.mem, {}) && p in h.mem
    ensures ClosedDis(h, Close(h, p), p)
  {
    assert PeerOk(h.mem, p, {});
    var q := h.mem[p].peer;
    if q != 0 {
      assert PeerOk(h.mem, q, {});
    }
  }

  lemma SentOk(h: Heap, sent: seq<Packet>, orphans: set<Ptr>)
    requires Ok(h, orphans)
    ensures Ok(h.(sent := sent), orphans)
  {
    var h' := h.(sent := sent);
    forall p | p in h'.mem ensures LocalOk(h', p) { assert LocalOk(h, p); }
    forall t, n | t in h'.dis && n in h'.dis[t] ensures NodeOk(h', n, t) { assert NodeOk(h, n, t); }
  }

  // --- close_all_sockets ---

  predicate OnTransport(mem: map<Ptr, Sock>, p: Ptr, t: Ptr)
    requires p in mem
  {
    mem[p].tr == t || (mem[p].peer in mem && mem[mem[p].peer].tr == t)
  }

  /** The position of the first listed socket from i on that t concerns, or the end. */
  function FirstOn(h: Heap, t: Ptr, i: nat): (k: nat)
    requires i <= |h.list| && forall p :: p in h.list ==> p in h.mem
    ensures i <= k <= |h.list|
    ensures k < |h.list| ==> OnTransport(h.mem, h.list[k], t)
    ensures forall j :: i <= j < k ==> !OnTransport(h.mem, h.list[j], t)
    decreases |h.list| - i
  {
    if i == |h.list| || OnTransport(h.mem, h.list[i], t) then i else FirstOn(h, t, i + 1)
  }

  lemma ListedAllocated(h: Heap)
    requires Ok(h, {})
    ensures PeersOk(h.mem, {}) && forall p :: p in h.list ==> p in h.mem && h.mem[p].kind == Local && p != 0
  {
  }

  /** Closing a listed socket shortens the list, and leaves alone what t does not concern. */
  lemma CloseShrinks(h: Heap, p: Ptr, t: Ptr)
    requires Ok(h, {}) && p in h.mem && p in h.list && OnTransport(h.mem, p, t)
    ensures Ok(Close(h, p), {}) && |Close(h, p).list| < |h.list|
    ensures Untouched(h.mem, Close(h, p).mem, t)
    ensures Close(h, p).lmem == h.lmem
  {
    hide Ok, Close, ClosedDis;
    PeersOfOk(h);
    CloseOk(h, p);
    var q := h.mem[p].peer;
    assert PeerOk(h.mem, p, {});
    WithoutProps(h.list, q);
    WithoutProps(Without(h.list, q), p);
    forall r | r in h.mem && !OnTransport(h.mem, r, t)
      ensures r in Close(h, p).mem && Close(h, p).mem[r] == h.mem[r] && !OnTransport(Close(h, p).mem, r, t)
    {
      assert PeerOk(h.mem, r, {});
    }
  }

  /** Sockets that t does not concern are unchanged. */
  predicate Untouched(mem: map<Ptr, Sock>, mem': map<Ptr, Sock>, t: Ptr)
  {
    forall r :: r in mem && !OnTransport(mem, r, t) ==>
      r in mem' && mem'[r] == mem[r] && !OnTransport(mem', r, t)
  }

  /** close_all_sockets: closing the first listed socket that t concerns, and starting over,
      until there is none.  It ends because each close shortens the list. */
  function CloseAll(h: Heap, t: Ptr): (h': Heap)
    requires Ok(h, {})
    ensures Ok(h', {})
    ensures forall p :: p in h'.list ==> p in h'.mem && !OnTransport(h'.mem, p, t)
    ensures Untouched(h.mem, h'.mem, t)
    ensures h'.lmem == h.lmem
    decreases |h.list|
  {
    ListedAllocated(h);
    var k := FirstOn(h, t, 0);
    if k == |h.list| then h
    else
      CloseShrinks(h, h.list[k], t);
      CloseAll(Close(h, h.list[k]), t)
  }

  // --- listeners ---

  function Register(dis: map<Ptr, seq<Node>>, t: Ptr, n: Node): (dis': map<Ptr, seq<Node>>)
  {
    dis[t := (if t in dis then dis[t] else []) + [n]]
  }

  /** free_listener. */
  function FreeListener(h: Heap, l: Ptr): (h': Heap)
    requires l in h.lmem
  {
    h.(lmem := h.lmem - {l}, listeners := Without(h.listeners, l),
       dis := Unregister(h.dis, h.lmem[l].tr, OfListener(l)))
  }

  lemma FreeListenerOk(h: Heap, l: Ptr)
    requires Ok(h, {}) && l in h.lmem
    ensures Ok(FreeListener(h, l), {})
  {
    var h' := FreeListener(h, l);
    WithoutProps(h.listeners, l);
    FreeListenerDis(h, l);
    forall p | p in h'.mem ensures LocalOk(h', p) { assert LocalOk(h, p); }
  }

  lemma FreeListenerDis(h: Heap, l: Ptr)
    requires DisOk(h) && l in h.lmem
    ensures DisOk(FreeListener(h, l))
  {
    var h' := FreeListener(h, l);
    UnregisterProps(h.dis, h.lmem[l].tr, OfListener(l));
    forall t, n | t in h'.dis && n in h'.dis[t] ensures NodeOk(h', n, t) { assert NodeOk(h, n, t); }
  }

  /** install_listener on a name that is already there: the listener gets a new destination
      and moves to the new transport's list. */
  function Rebind(h: Heap, l: Ptr, connectTo: string, t: Ptr): (h': Heap)
    requires l in h.lmem
  {
    var x := h.lmem[l];
    h.(lmem := h.lmem[l := x.(connectTo := connectTo, tr := t)],
       dis := if x.tr == t then h.dis else Register(Unregister(h.dis, x.tr, OfListener(l)), t, OfListener(l)))
  }

  lemma RebindOk(h: Heap, l: Ptr, connectTo: string, t: Ptr)
    requires Ok(h, {}) && l in h.lmem && (t != 0 || h.lmem[l].tr == 0)
    ensures Ok(Rebind(h, l, connectTo, t), {})
  {
    var h' := Rebind(h, l, connectTo, t);
    RebindDis(h, l, connectTo, t);
    forall p | p in h'.mem ensures LocalOk(h', p) { assert LocalOk(h, p); }
  }

  lemma RebindDis(h: Heap, l: Ptr, connectTo: string, t: Ptr)
    requires DisOk(h) && l in h.lmem && (t != 0 || h.lmem[l].tr == 0)
    ensures DisOk(Rebind(h, l, connectTo, t))
  {
    var h' := Rebind(h, l, connectTo, t);
    UnregisterProps(h.dis, h.lmem[l].tr, OfListener(l));
    assert t in h.dis && h.lmem[l].tr != t && OfListener(l) in h.dis[t] ==> NodeOk(h, OfListener(l), t);
    forall u, n | u in h'.dis && n in h'.dis[u] ensures NodeOk(h', n, u) {
      if u in h.dis && n in h.dis[u] { assert NodeOk(h, n, u); }
    }
  }

  /** A new listener. */
  function AddListener(h: Heap, l: Ptr, x: Lsn): (h': Heap)
  {
    h.(lmem := h.lmem[l := x], listeners := h.listeners + [l],
       dis := if x.tr == 0 then h.dis else Register(h.dis, x.tr, OfListener(l)))
  }

  lemma AddListenerOk(h: Heap, l: Ptr, x: Lsn)
    requires Ok(h, {}) && l != 0 && l !in h.lmem
    requires forall k :: k in h.lmem ==> h.lmem[k].name != x.name
    ensures Ok(AddListener(h, l, x), {})
  {
    var h' := AddListener(h, l, x);
    AddListenerDis(h, l, x);
    forall p | p in h'.mem ensures LocalOk(h', p) { assert LocalOk(h, p); }
  }

  lemma AddListenerDis(h: Heap, l: Ptr, x: Lsn)
    requires DisOk(h) && l !in h.lmem
    ensures DisOk(AddListener(h, l, x))
  {
    var h' := AddListener(h, l, x);
    assert x.tr in h.dis && OfListener(l) in h.dis[x.tr] ==> NodeOk(h, OfListener(l), x.tr);
    forall u, n | u in h'.dis && n in h'.dis[u] ensures NodeOk(h', n, u) {
      if u in h.dis && n in h.dis[u] { assert NodeOk(h, n, u); }
    }
  }

  // --- run_transport_disconnects ---

  /** dis->func: remote_socket_disconnect or listener_disconnect. */
  function Callback(h: Heap, n: Node): (h': Heap)
    requires PeersOk(h.mem, {})
  {
    match n
    case OfSocket(p) => if p in h.mem then Close(h, p) else h
    case OfListener(l) => if l in h.lmem then FreeListener(h, l) else h
  }

  /** A callback unlinks its own entry and no other, so the next one is still there. */
  lemma CallbackUnlinks(h: Heap, t: Ptr)
    requires Ok(h, {}) && t in h.dis && h.dis[t] != []
    ensures PeersOk(h.mem, {}) && Ok(Callback(h, h.dis[t][0]), {})
    ensures var h' := Callback(h, h.dis[t][0]);
            h'.dis.Keys == h.dis.Keys && h'.dis == h.dis[t := h.dis[t][1..]]
  {
    hide PeersOk, ListsOk, IdsOk, ListenersOk, Close, Closed;
    var n := h.dis[t][0];
    assert n in h.dis[t] && NodeOk(h, n, t);
    WithoutFirst(h.dis[t]);
    match n
    case OfSocket(p) =>
      CloseOk(h, p);
      RemotePeerIsLocal(h, p);
    case OfListener(l) => FreeListenerOk(h, l);
  }

  lemma RemotePeerIsLocal(h: Heap, p: Ptr)
    requires Ok(h, {}) && p in h.mem && h.mem[p].kind == Remote
    ensures h.mem[p].peer in h.mem && h.mem[h.mem[p].peer].kind == Local
  {
    assert PeerOk(h.mem, p, {});
  }

  /** run_transport_disconnects: every entry's callback runs, and the list ends empty. */
  function RunDisconnects(h: Heap, t: Ptr): (h': Heap)
    requires Ok(h, {})
    ensures Ok(h', {})
    ensures t in h'.dis ==> h'.dis[t] == []
    ensures forall u :: u in h.dis && u != t ==> u in h'.dis && h'.dis[u] == h.dis[u]
    decreases if t in h.dis then |h.dis[t]| else 0
  {
    if t !in h.dis || h.dis[t] == [] then h
    else
      CallbackUnlinks(h, t);
      RunDisconnects(Callback(h, h.dis[t][0]), t)
  }

  /** Afterwards no remote socket and no listener refers to the transport. */
  lemma DisconnectedIsUnreferenced(h: Heap, t: Ptr)
    requires Ok(h, {})
    ensures var h' := RunDisconnects(h, t);
            && (forall p :: p in h'.mem && h'.mem[p].kind == Remote ==> h'.mem[p].tr != t)
            && (t != 0 ==> forall l :: l in h'.lmem ==> h'.lmem[l].tr != t)
  {
  }

  // --- creating and connecting sockets ---

  /** create_local_socket and install_local_socket: the next id, at the end of the list. */
  function AddLocal(h: Heap, p: Ptr, t: Ptr): (h': Heap)
  {
    h.(mem := h.mem[p := Sock(Local, h.nextId, false, 0, t, 0)], list := h.list + [p], nextId := h.nextId + 1)
  }

  lemma AddLocalOk(h: Heap, p: Ptr, t: Ptr)
    requires Ok(h, {}) && p != 0 && p !in h.mem
    ensures Ok(AddLocal(h, p, t), {})
  {
    var h' := AddLocal(h, p, t);
    AddLocalLists(h, p, t);
    forall q | q in h'.mem ensures PeerOk(h'.mem, q, {}) { if q != p { assert PeerOk(h.mem, q, {}); } }
    DisSame(h, h', p);
  }

  lemma AddLocalLists(h: Heap, p: Ptr, t: Ptr)
    requires ListsOk(h) && IdsOk(h) && p !in h.mem
    ensures ListsOk(AddLocal(h, p, t)) && IdsOk(AddLocal(h, p, t))
  {
    var h' := AddLocal(h, p, t);
    forall q | q in h'.mem ensures LocalOk(h', q) { if q != p { assert LocalOk(h, q); } }
    forall q | q in h.list ensures h.mem[q].id < h.nextId { assert LocalOk(h, q); }
  }

  /** A new remote or smart socket q becomes the peer of p: create_remote_socket, or
      connect_to_smartsocket. */
  function Attach(h: Heap, p: Ptr, q: Ptr, kind: Kind, id: nat, t: Ptr): (h': Heap)
    requires p in h.mem
  {
    h.(mem := h.mem[p := h.mem[p].(peer := q)][q := Sock(kind, id, false, p, t, 0)],
       dis := if kind == Remote then Register(h.dis, t, OfSocket(q)) else h.dis)
  }

  predicate CanAttach(h: Heap, p: Ptr, q: Ptr, kind: Kind, id: nat, t: Ptr)
  {
    && p in h.list && p in h.mem && h.mem[p].peer == 0 && q != 0 && q !in h.mem
    && (if kind == Remote then id != 0 && t != 0 else kind == Smart && id == 0)
  }

  lemma AttachOk(h: Heap, p: Ptr, q: Ptr, kind: Kind, id: nat, t: Ptr)
    requires Ok(h, {}) && CanAttach(h, p, q, kind, id, t)
    ensures Ok(Attach(h, p, q, kind, id, t), {})
  {
    var h' := Attach(h, p, q, kind, id, t);
    var mem := h.mem[p := h.mem[p].(peer := q)];
    assert h.mem[p].kind == Local && !h.mem[p].closing;
    AttachPeers(h, p, q, kind, id, t);
    forall r | r in mem && mem[r].kind == Local && mem[r].closing ensures mem[r].peer == 0 { assert LocalOk(h, r); }
    OnlyPeersOk(h, mem);
    ListsSame(h.(mem := mem), h', q);
    AttachDis(h.(mem := mem), h', q, t);
  }

  lemma AttachPeers(h: Heap, p: Ptr, q: Ptr, kind: Kind, id: nat, t: Ptr)
    requires PeersOk(h.mem, {}) && CanAttach(h, p, q, kind, id, t) && h.mem[p].kind == Local
    ensures PeersOk(Attach(h, p, q, kind, id, t).mem, {})
  {
    var h' := Attach(h, p, q, kind, id, t);
    forall r | r in h'.mem ensures PeerOk(h'.mem, r, {}) { if r in h.mem { assert PeerOk(h.mem, r, {}); } }
  }

  lemma AttachDis(h: Heap, h': Heap, q: Ptr, t: Ptr)
    requires DisOk(h) && q !in h.mem && q in h'.mem && h'.mem == h.mem[q := h'.mem[q]] && h'.lmem == h.lmem
    requires if h'.mem[q].kind == Remote then t != 0 && h'.mem[q].tr == t && h'.mem[q].id != 0
                                              && h'.dis == Register(h.dis, t, OfSocket(q))
             else h'.dis == h.dis
    ensures DisOk(h')
  {
    assert t in h.dis && OfSocket(q) in h.dis[t] ==> NodeOk(h, OfSocket(q), t);
    forall u, n | u in h'.dis && n in h'.dis[u] ensures NodeOk(h', n, u) {
      if u in h.dis && n in h.dis[u] { assert NodeOk(h, n, u); }
    }
  }

  /** smart_socket_enqueue, once the request is read: the smart socket goes and its peer is
      left with a transport, waiting for A_OKAY. */
  function SmartRemote(h: Heap, s: Ptr, t: Ptr): (h': Heap)
    requires s in h.mem && h.mem[s].peer in h.mem
  {
    var p := h.mem[s].peer;
    h.(mem := h.mem[p := h.mem[p].(peer := 0, tr := t)] - {s})
  }

  lemma SmartRemoteOk(h: Heap, s: Ptr, t: Ptr)
    requires Ok(h, {}) && s in h.mem && h.mem[s].kind == Smart
    ensures h.mem[s].peer in h.mem && Ok(SmartRemote(h, s, t), {})
  {
    SmartRemotePeers(h, s, t);
    var h' := SmartRemote(h, s, t);
    forall r | r in h'.mem ensures LocalOk(h', r) { assert LocalOk(h, r); }
    forall u, n | u in h'.dis && n in h'.dis[u] ensures NodeOk(h', n, u) { assert NodeOk(h, n, u); }
  }

  lemma SmartRemotePeers(h: Heap, s: Ptr, t: Ptr)
    requires PeersOk(h.mem, {}) && s in h.mem && h.mem[s].kind == Smart
    ensures h.mem[s].peer in h.mem && h.mem[h.mem[s].peer].kind == Local && PeersOk(SmartRemote(h, s, t).mem, {})
  {
    assert PeerOk(h.mem, s, {});
    var mem := SmartRemote(h, s, t).mem;
    forall r | r in mem ensures PeerOk(mem, r, {}) { assert PeerOk(h.mem, r, {}); }
  }

  /** handle_host_request, for a request that chooses a transport. */
  function SetTransport(h: Heap, s: Ptr, t: Ptr): (h': Heap)
    requires s in h.mem
  {
    h.(mem := h.mem[s := h.mem[s].(tr := t)])
  }

  /** The choice keeps the heap in order, and from then on the transport concerns the client. */
  lemma SetTransportOk(h: Heap, s: Ptr, t: Ptr)
    requires Ok(h, {}) && s in h.mem && h.mem[s].kind == Smart
    ensures Ok(SetTransport(h, s, t), {})
    ensures h.mem[s].peer in h.mem && OnTransport(SetTransport(h, s, t).mem, h.mem[s].peer, t)
  {
    var h' := SetTransport(h, s, t);
    assert PeerOk(h.mem, s, {});
    forall r | r in h'.mem ensures PeerOk(h'.mem, r, {}) { assert PeerOk(h.mem, r, {}); }
    forall r | r in h'.mem ensures LocalOk(h', r) { assert LocalOk(h, r); }
    forall u, n | u in h'.dis && n in h'.dis[u] ensures NodeOk(h', n, u) { assert NodeOk(h, n, u); }
  }

  /** smart_socket_enqueue for a service of the host itself: a new local socket takes the
      smart socket's place. */
  function SmartHost(h: Heap, s: Ptr, s2: Ptr): (h': Heap)
    requires s in h.mem && h.mem[s].peer in h.mem
  {
    var p, h1 := h.mem[s].peer, AddLocal(h, s2, 0);
    h1.(mem := h1.mem[p := h1.mem[p].(peer := s2)][s2 := h1.mem[s2].(peer := p)] - {s})
  }

  lemma SmartHostOk(h: Heap, s: Ptr, s2: Ptr)
    requires Ok(h, {}) && s in h.mem && h.mem[s].kind == Smart && s2 != 0 && s2 !in h.mem
    ensures h.mem[s].peer in h.mem && Ok(SmartHost(h, s, s2), {})
  {
    hide PeersOk, ListsOk, IdsOk, DisOk, ListenersOk;
    AddLocalOk(h, s2, 0);
    SmartHostPeers(h, s, s2);
    var p, h1 := h.mem[s].peer, AddLocal(h, s2, 0);
    var mem := h1.mem[p := h1.mem[p].(peer := s2)][s2 := h1.mem[s2].(peer := p)];
    ClosingHasNoPeer(h1, p);
    OnlyPeersOk(h1, mem);
    ListsSame(h1.(mem := mem), h1.(mem := mem - {s}), s);
    DisSame(h1.(mem := mem), h1.(mem := mem - {s}), s);
    ListenersSame(h1, h1.(mem := mem - {s}));
  }

  lemma ClosingHasNoPeer(h: Heap, p: Ptr)
    requires ListsOk(h) && p in h.mem && h.mem[p].peer != 0
    ensures forall r :: r in h.mem && h.mem[r].kind == Local && h.mem[r].closing ==> h.mem[r].peer == 0 && r != p
  {
    forall r | r in h.mem && h.mem[r].kind == Local && h.mem[r].closing ensures h.mem[r].peer == 0 {
      assert LocalOk(h, r);
    }
  }

  lemma ListenersSame(h: Heap, h': Heap)
    requires ListenersOk(h) && h'.lmem == h.lmem && h'.listeners == h.listeners
    ensures ListenersOk(h')
  {
  }

  lemma SmartHostPeers(h: Heap, s: Ptr, s2: Ptr)
    requires PeersOk(h.mem, {}) && s in h.mem && h.mem[s].kind == Smart && s2 != 0 && s2 !in h.mem
    ensures s != 0 && h.mem[s].peer in h.mem && h.mem[s].peer != s && h.mem[h.mem[s].peer].peer == s
    ensures PeersOk(SmartHost(h, s, s2).mem, {})
  {
    assert PeerOk(h.mem, s, {});
    var mem := SmartHost(h, s, s2).mem;
    forall r | r in mem ensures PeerOk(mem, r, {}) { if r in h.mem { assert PeerOk(h.mem, r, {}); } }
  }

  /** The packets queued on a local socket. */
  function SetQueued(h: Heap, p: Ptr, n: nat): (h': Heap)
    requires p in h.mem
  {
    h.(mem := h.mem[p := h.mem[p].(queued := n)])
  }

  lemma SetQueuedOk(h: Heap, p: Ptr, n: nat)
    requires Ok(h, {}) && p in h.mem && h.mem[p].kind == Local && (h.mem[p].closing ==> n > 0)
    requires n > 0 && !h.mem[p].closing ==> h.mem[p].peer in h.mem && h.mem[h.mem[p].peer].kind != Smart
    ensures Ok(SetQueued(h, p, n), {})
  {
    hide PeersOk, ListsOk, IdsOk, DisOk, ListenersOk;
    var h' := SetQueued(h, p, n);
    SetQueuedPeers(h.mem, p, n);
    SetQueuedLists(h, p, n);
    DisSame(h, h', p);
    ListenersSame(h, h');
  }

  lemma SetQueuedPeers(mem: map<Ptr, Sock>, p: Ptr, n: nat)
    requires PeersOk(mem, {}) && p in mem && mem[p].kind == Local
    requires n > 0 && !mem[p].closing ==> mem[p].peer in mem && mem[mem[p].peer].kind != Smart
    ensures PeersOk(mem[p := mem[p].(queued := n)], {})
  {
    var mem' := mem[p := mem[p].(queued := n)];
    forall r | r in mem' ensures PeerOk(mem', r, {}) { assert PeerOk(mem, r, {}); }
  }

  lemma SetQueuedLists(h: Heap, p: Ptr, n: nat)
    requires ListsOk(h) && IdsOk(h) && p in h.mem && h.mem[p].kind == Local && (h.mem[p].closing ==> n > 0)
    ensures ListsOk(SetQueued(h, p, n)) && IdsOk(SetQueued(h, p, n))
  {
    var h' := SetQueued(h, p, n);
    forall r | r in h'.mem ensures LocalOk(h', r) { assert LocalOk(h, r); }
  }

  // --- events ---

  /** The position from i on of the listed socket with this id, or the end. */
  function IdAt(h: Heap, id: nat, i: nat): (k: nat)
    requires i <= |h.list| && forall p :: p in h.list ==> p in h.mem
    ensures i <= k <= |h.list|
    ensures k < |h.list| ==> h.mem[h.list[k]].id == id
    ensures forall j :: i <= j < k ==> h.mem[h.list[j]].id != id
    decreases |h.list| - i
  {
    if i == |h.list| || h.mem[h.list[i]].id == id then i else IdAt(h, id, i + 1)
  }

  /** find_local_socket, 0 when there is none. */
  function Find(h: Heap, id: nat, peerId: nat): (s: Ptr)
    requires Ok(h, {})
    ensures s != 0 ==> s in h.list && s in h.mem && h.mem[s].id == id
    ensures s != 0 && peerId != 0 ==> h.mem[s].peer in h.mem && h.mem[h.mem[s].peer].id == peerId
  {
    ListedAllocated(h);
    var k := IdAt(h, id, 0);
    if k == |h.list| then 0
    else
      var s := h.list[k];
      if peerId == 0 || (h.mem[s].peer in h.mem && h.mem[h.mem[s].peer].id == peerId) then s else 0
  }

  datatype Event =
    | Accept(p: Ptr, s: Ptr)                  // ss_listener_event_func
    | Forward(p: Ptr, t: Ptr)                 // listener_event_func
    | Choose(s: Ptr, t: Ptr)                  // smart_socket_enqueue, host:transport
    | Request(s: Ptr, t: Ptr)                 // request for the transport chosen, or any
    | RequestHost(s: Ptr, s2: Ptr)            // smart_socket_enqueue, request for the host
    | RequestFails(s: Ptr)                    // smart_socket_enqueue, fail
    | Open(t: Ptr, arg0: nat, found: bool, p: Ptr, q: Ptr)      // handle_packet
    | Ready(t: Ptr, arg0: nat, arg1: nat, q: Ptr)
    | CloseMsg(t: Ptr, arg0: nat, arg1: nat)
    | Data(t: Ptr, arg0: nat, arg1: nat, blocks: bool, fails: bool)
    | Writable(p: Ptr, done: bool, fails: bool)                 // local_socket_event_func
    | Feed(p: Ptr, blocks: bool, fails: bool)                   // what p read goes to a local peer
    | Eof(p: Ptr)
    | Offline(t: Ptr)                         // handle_offline
    | InputEnds(t: Ptr)                       // close_all_sockets
    | Listen(name: string, connectTo: string, t: Ptr, noRebind: bool, l: Ptr)
    | Unlisten(l: Ptr)

  /** What the system guarantees: new objects have new addresses. */
  predicate Fresh(h: Heap, p: Ptr)
  {
    p != 0 && p !in h.mem
  }

  function HandleOpen(h: Heap, t: Ptr, x: nat, found: bool, p: Ptr, q: Ptr): (h': Heap)
  {
    if x == 0 || t == 0 then h
    else if !found then h.(sent := h.sent + [Clse(t, 0, x)])
    else if h.nextId >= MAX_ID || !Fresh(h, p) || !Fresh(h, q) || p == q then h
    else
      var h1 := Attach(AddLocal(h, p, 0), p, q, Remote, x, t);
      h1.(sent := h1.sent + [Okay(t, h.nextId, x)])
  }

  /** local_socket_enqueue, and whether it returned 0. */
  function EnqueueLocal(h: Heap, s: Ptr, blocks: bool, fails: bool): (r: (Heap, bool))
    requires PeersOk(h.mem, {}) && s in h.mem
  {
    if h.mem[s].queued > 0 then (SetQueued(h, s, h.mem[s].queued + 1), false)
    else if fails then (Close(h, s), false)
    else if blocks then (SetQueued(h, s, 1), false)
    else (h, true)
  }

  function HandleData(h: Heap, t: Ptr, x: nat, y: nat, blocks: bool, fails: bool): (h': Heap)
    requires Ok(h, {})
  {
    if x == 0 || y == 0 || Find(h, y, x) == 0 then h
    else
      var s := Find(h, y, x);
      var (h1, all) := EnqueueLocal(h, s, blocks, fails);
      if all then h1.(sent := h1.sent + [Okay(t, h.mem[s].id, x)]) else h1
  }

  /** Two local sockets are peers: one is a service of the host, the other its client. */
  predicate LocalPair(mem: map<Ptr, Sock>, p: Ptr)
  {
    p in mem && mem[p].kind == Local && mem[p].peer in mem && mem[mem[p].peer].kind == Local
  }

  function HandleWritable(h: Heap, p: Ptr, done: bool, fails: bool): (h': Heap)
    requires Ok(h, {}) && p in h.mem && h.mem[p].kind == Local && h.mem[p].queued > 0
  {
    if fails then Close(h, p)
    else if !done then h
    else if h.mem[p].closing then Close(h, p)
    else
      assert PeerOk(h.mem, p, {});
      var q := h.mem[h.mem[p].peer];
      var h1 := SetQueued(h, p, 0);
      if q.kind == Remote then h1.(sent := h1.sent + [Okay(q.tr, h.mem[p].id, q.id)]) else h1
  }

  function Step(h: Heap, ev: Event): (h': Heap)
    requires Ok(h, {})
  {
    match ev
    case Accept(p, s) =>
      if h.nextId >= MAX_ID || !Fresh(h, p) || !Fresh(h, s) || p == s then h
      else Attach(AddLocal(h, p, 0), p, s, Smart, 0, 0)
    case Forward(p, t) =>
      if h.nextId >= MAX_ID || !Fresh(h, p) then h else AddLocal(h, p, t)
    case Choose(s, t) => if s in h.mem && h.mem[s].kind == Smart then SetTransport(h, s, t) else h
    case Request(s, t) =>
      if s !in h.mem || h.mem[s].kind != Smart then h
      else
        assert PeerOk(h.mem, s, {});
        SmartRemote(h, s, if h.mem[s].tr != 0 then h.mem[s].tr else t)
    case RequestHost(s, s2) =>
      if s !in h.mem || h.mem[s].kind != Smart || h.nextId >= MAX_ID || !Fresh(h, s2) then h
      else
        assert PeerOk(h.mem, s, {});
        SmartHost(h, s, s2)
    case RequestFails(s) =>
      if s !in h.mem || h.mem[s].kind != Smart then h else Close(h, s)
    case Open(t, x, found, p, q) => HandleOpen(h, t, x, found, p, q)
    case Ready(t, x, y, q) =>
      if x == 0 || y == 0 || t == 0 || !Fresh(h, q) || Find(h, y, 0) == 0 || h.mem[Find(h, y, 0)].peer != 0 then h
      else Attach(h, Find(h, y, 0), q, Remote, x, t)
    case CloseMsg(t, x, y) =>
      if y == 0 || Find(h, y, x) == 0 then h
      else
        var q := h.mem[Find(h, y, x)].peer;
        if x == 0 && q in h.mem && h.mem[q].tr != t then h else Close(h, Find(h, y, x))
    case Data(t, x, y, blocks, fails) => HandleData(h, t, x, y, blocks, fails)
    case Writable(p, done, fails) =>
      if p in h.mem && h.mem[p].kind == Local && h.mem[p].queued > 0 then HandleWritable(h, p, done, fails) else h
    case Feed(p, blocks, fails) =>
      if LocalPair(h.mem, p) then EnqueueLocal(h, h.mem[p].peer, blocks, fails).0 else h
    case Eof(p) => if p in h.mem && h.mem[p].kind == Local then Close(h, p) else h
    case Offline(t) => RunDisconnects(h, t)
    case InputEnds(t) => CloseAll(h, t)
    case Listen(name, connectTo, t, noRebind, l) => Install(h, name, connectTo, t, noRebind, l).0
    case Unlisten(l) => if l in h.lmem then FreeListener(h, l) else h
  }

  /** Dies: the program follows a null pointer. */
  datatype Status = Installed | InternalError | CannotRebind | CannotBind | Dies

  /** The position from i on of the listener with this name, or the end. */
  function NameAt(h: Heap, name: string, i: nat): (k: nat)
    requires i <= |h.listeners| && forall l :: l in h.listeners ==> l in h.lmem
    ensures i <= k <= |h.listeners|
    ensures k < |h.listeners| ==> h.lmem[h.listeners[k]].name == name
    ensures forall j :: i <= j < k ==> h.lmem[h.listeners[j]].name != name
    decreases |h.listeners| - i
  {
    if i == |h.listeners| || h.lmem[h.listeners[i]].name == name then i else NameAt(h, name, i + 1)
  }

  /** install_listener.  The address 0 for a new listener stands for a bind that fails.  A
      listener that has no transport, or is to have none, cannot change lists. */
  function Install(h: Heap, name: string, connectTo: string, t: Ptr, noRebind: bool, l: Ptr): (r: (Heap, Status))
    requires Ok(h, {})
  {
    var k := NameAt(h, name, 0);
    if k < |h.listeners| then
      var x := h.listeners[k];
      if Star(h.lmem[x].connectTo) then (h, InternalError)
      else if noRebind then (h, CannotRebind)
      else if h.lmem[x].tr != t && (h.lmem[x].tr == 0 || t == 0) then (h, Dies)
      else (Rebind(h, x, connectTo, t), Installed)
    else if l == 0 || l in h.lmem then (h, CannotBind)
    else (AddListener(h, l, Lsn(name, connectTo, t)), Installed)
  }

  /** Every outcome leaves the heap in order, and unless a listener was installed unchanged;
      if one was, it is the only one of its name and has the destination and the transport. */
  lemma InstallOk(h: Heap, name: string, connectTo: string, t: Ptr, noRebind: bool, l: Ptr)
    requires Ok(h, {})
    ensures var (h', st) := Install(h, name, connectTo, t, noRebind, l);
            && Ok(h', {})
            && (st != Installed ==> h' == h)
            && (st == Installed ==> exists x :: x in h'.lmem && h'.lmem[x] == Lsn(name, connectTo, t))
            && (forall k :: k in h.lmem && h.lmem[k].name != name ==> k in h'.lmem && h'.lmem[k] == h.lmem[k])
  {
    hide PeersOk, ListsOk, IdsOk, DisOk;
    var k := NameAt(h, name, 0);
    if k < |h.listeners| {
      if t != 0 || h.lmem[h.listeners[k]].tr == 0 { RebindOk(h, h.listeners[k], connectTo, t); }
      assert h.listeners[k] in Rebind(h, h.listeners[k], connectTo, t).lmem;
    } else if l != 0 && l !in h.lmem {
      forall x | x in h.lmem ensures h.lmem[x].name != name {
        var j :| 0 <= j < |h.listeners| && h.listeners[j] == x;
      }
      AddListenerOk(h, l, Lsn(name, connectTo, t));
      assert l in AddListener(h, l, Lsn(name, connectTo, t)).lmem;
    }
  }

  lemma NewPairOk(h: Heap, p: Ptr, q: Ptr, kind: Kind, id: nat, t: Ptr)
    requires Ok(h, {}) && Fresh(h, p) && Fresh(h, q) && p != q
    requires if kind == Remote then id != 0 && t != 0 else kind == Smart && id == 0
    ensures Ok(Attach(AddLocal(h, p, 0), p, q, kind, id, t), {})
  {
    hide Ok, Attach;
    AddLocalOk(h, p, 0);
    AttachOk(AddLocal(h, p, 0), p, q, kind, id, t);
  }

  lemma EnqueueOk(h: Heap, s: Ptr, blocks: bool, fails: bool)
    requires Ok(h, {}) && s in h.mem && h.mem[s].kind == Local && !h.mem[s].closing
    requires h.mem[s].peer in h.mem && h.mem[h.mem[s].peer].kind != Smart
    ensures PeersOk(h.mem, {}) && Ok(EnqueueLocal(h, s, blocks, fails).0, {})
  {
    hide Ok, PeersOk, Close, SetQueued;
    PeersOfOk(h);
    SetQueuedOk(h, s, h.mem[s].queued + 1);
    CloseOk(h, s);
  }

  lemma DataOk(h: Heap, t: Ptr, x: nat, y: nat, blocks: bool, fails: bool)
    requires Ok(h, {})
    ensures Ok(HandleData(h, t, x, y, blocks, fails), {})
  {
    hide Ok, EnqueueLocal, Find;
    var s := Find(h, y, x);
    if x != 0 && y != 0 && s != 0 {
      DataTarget(h, s, x);
      EnqueueOk(h, s, blocks, fails);
      var h1 := EnqueueLocal(h, s, blocks, fails).0;
      SentOk(h1, h1.sent + [Okay(t, h.mem[s].id, x)], {});
    }
  }

  /** The other end of a local pair is listed, and has the first for its peer. */
  lemma LocalPairPeer(h: Heap, p: Ptr)
    requires Ok(h, {}) && LocalPair(h.mem, p)
    ensures var q := h.mem[p].peer;
            LocalPair(h.mem, q) && h.mem[q].peer == p && p != q && !h.mem[p].closing && !h.mem[q].closing
  {
    assert PeerOk(h.mem, p, {}) && LocalOk(h, p) && LocalOk(h, h.mem[p].peer);
  }

  lemma FeedOk(h: Heap, p: Ptr, blocks: bool, fails: bool)
    requires Ok(h, {}) && LocalPair(h.mem, p)
    ensures PeersOk(h.mem, {}) && Ok(EnqueueLocal(h, h.mem[p].peer, blocks, fails).0, {})
  {
    hide Ok, PeersOk, EnqueueLocal;
    LocalPairPeer(h, p);
    EnqueueOk(h, h.mem[p].peer, blocks, fails);
  }

  /** The socket that A_WRTE finds is not talking to a smart socket. */
  lemma DataTarget(h: Heap, s: Ptr, x: nat)
    requires Ok(h, {}) && s in h.list && s in h.mem && x != 0
    requires h.mem[s].peer in h.mem && h.mem[h.mem[s].peer].id == x
    ensures h.mem[s].kind == Local && !h.mem[s].closing && h.mem[h.mem[s].peer].kind != Smart
  {
    assert PeerOk(h.mem, h.mem[s].peer, {});
  }

  lemma WritableOk(h: Heap, p: Ptr, done: bool, fails: bool)
    requires Ok(h, {}) && p in h.mem && h.mem[p].kind == Local && h.mem[p].queued > 0
    ensures Ok(HandleWritable(h, p, done, fails), {})
  {
    hide ListsOk, IdsOk, DisOk, ListenersOk, Close;
    CloseOk(h, p);
    if !h.mem[p].closing {
      SetQueuedOk(h, p, 0);
      var h1 := SetQueued(h, p, 0);
      SentOk(h1, HandleWritable(h, p, done, fails).sent, {});
    }
  }

  /** Every event keeps the heap in order: symmetric peers, unique ids, no pointer to a freed
      socket, lists that agree with what is allocated. */
  lemma StepOk(h: Heap, ev: Event)
    requires Ok(h, {})
    ensures Ok(Step(h, ev), {})
  {
    hide Ok, Close, Attach, SmartRemote, SmartHost, HandleData, EnqueueLocal, HandleWritable, CloseAll,
         RunDisconnects, Install, FreeListener;
    match ev
    case Accept(p, s) =>
      if Fresh(h, p) && Fresh(h, s) && p != s { NewPairOk(h, p, s, Smart, 0, 0); }
    case Forward(p, t) => if Fresh(h, p) { AddLocalOk(h, p, t); }
    case Choose(s, t) => if s in h.mem && h.mem[s].kind == Smart { SetTransportOk(h, s, t); }
    case Request(s, t) =>
      if s in h.mem && h.mem[s].kind == Smart { SmartRemoteOk(h, s, if h.mem[s].tr != 0 then h.mem[s].tr else t); }
    case RequestHost(s, s2) => if s in h.mem && h.mem[s].kind == Smart && Fresh(h, s2) { SmartHostOk(h, s, s2); }
    case RequestFails(s) => if s in h.mem { CloseOk(h, s); }
    case Open(t, x, found, p, q) =>
      if x != 0 && t != 0 {
        if !found {
          SentOk(h, h.sent + [Clse(t, 0, x)], {});
        } else if Fresh(h, p) && Fresh(h, q) && p != q {
          NewPairOk(h, p, q, Remote, x, t);
          var h1 := Attach(AddLocal(h, p, 0), p, q, Remote, x, t);
          SentOk(h1, h1.sent + [Okay(t, h.nextId, x)], {});
        }
      }
    case Ready(t, x, y, q) =>
      var s := Find(h, y, 0);
      if x != 0 && t != 0 && Fresh(h, q) && s != 0 && h.mem[s].peer == 0 { AttachOk(h, s, q, Remote, x, t); }
    case CloseMsg(t, x, y) => if Find(h, y, x) != 0 { CloseOk(h, Find(h, y, x)); }
    case Data(t, x, y, blocks, fails) => DataOk(h, t, x, y, blocks, fails);
    case Writable(p, done, fails) =>
      if p in h.mem && h.mem[p].kind == Local && h.mem[p].queued > 0 { WritableOk(h, p, done, fails); }
    case Feed(p, blocks, fails) => if LocalPair(h.mem, p) { FeedOk(h, p, blocks, fails); }
    case Eof(p) => if p in h.mem { CloseOk(h, p); }
    case Offline(t) =>
    case InputEnds(t) =>
    case Listen(name, connectTo, t, noRebind, l) => InstallOk(h, name, connectTo, t, noRebind, l);
    case Unlisten(l) => if l in h.lmem { FreeListenerOk(h, l); }
  }

  function Run(evs: seq<Event>): (h: Heap)
    ensures Ok(h, {})
  {
    if evs == [] then Heap(map[], [], [], 1, map[], map[], [], [])
    else
      StepOk(Run(evs[..|evs| - 1]), evs[|evs| - 1]);
      Step(Run(evs[..|evs| - 1]), evs[|evs| - 1])
  }

  /** In every reachable state peers point at each other, listed sockets have distinct ids
      that are not 0, closing sockets have neither id nor peer, and a remote socket is on
      its transport's list exactly once. */
  lemma HeapInvariant(evs: seq<Event>)
    ensures var h := Run(evs);
            && (forall p :: p in h.mem && h.mem[p].peer != 0 ==> h.mem[p].peer in h.mem && h.mem[h.mem[p].peer].peer == p)
            && (forall p :: p in h.list ==> p in h.mem && 0 < h.mem[p].id < h.nextId)
            && (forall p, q :: p in h.list && q in h.list && p != q ==> h.mem[p].id != h.mem[q].id)
            && (forall p :: p in h.closing ==> p in h.mem && p !in h.list && h.mem[p].id == 0 && h.mem[p].peer == 0)
            && (forall p :: p in h.mem && h.mem[p].kind == Remote ==>
                  && h.mem[p].tr in h.dis && OfSocket(p) in h.dis[h.mem[p].tr] && NoDup(h.dis[h.mem[p].tr])
                  && forall t :: t in h.dis && t != h.mem[p].tr ==> OfSocket(p) !in h.dis[t])
  {
    var h := Run(evs);
    forall p | p in h.mem ensures PeerOk(h.mem, p, {}) && LocalOk(h, p) {
    }
    forall p, t | p in h.mem && t in h.dis && OfSocket(p) in h.dis[t] ensures t == h.mem[p].tr {
      assert NodeOk(h, OfSocket(p), t);
    }
  }

  // --- rebinding a listener ---

  /** install_listener follows a null pointer exactly if it is to move a listener to or from no
      transport. */
  lemma InstallDiesIff(h: Heap, name: string, connectTo: string, t: Ptr, noRebind: bool, l: Ptr)
    requires Ok(h, {})
    ensures Install(h, name, connectTo, t, noRebind, l).1 == Dies
       <==> !noRebind && exists x :: x in h.lmem && CannotMove(h.lmem[x], name, t)
  {
    hide PeersOk, ListsOk, IdsOk, DisOk;
    var k := NameAt(h, name, 0);
    if k < |h.listeners| {
      assert h.listeners[k] in h.lmem;
    } else {
      forall x | x in h.lmem ensures h.lmem[x].name != name {
        var j :| 0 <= j < |h.listeners| && h.listeners[j] == x;
      }
    }
  }

  /** The other failures: a smart-socket listener has the name; another has it and must not be
      rebound; none has it and the name cannot be bound. */
  lemma InstallFailsIff(h: Heap, name: string, connectTo: string, t: Ptr, noRebind: bool, l: Ptr)
    requires Ok(h, {})
    ensures var st := Install(h, name, connectTo, t, noRebind, l).1;
            && (st == InternalError <==> exists x :: x in h.lmem && h.lmem[x].name == name && Star(h.lmem[x].connectTo))
            && (st == CannotRebind <==>
                  noRebind && exists x :: x in h.lmem && h.lmem[x].name == name && !Star(h.lmem[x].connectTo))
            && (st == CannotBind <==> (l == 0 || l in h.lmem) && forall x :: x in h.lmem ==> h.lmem[x].name != name)
  {
    hide PeersOk, ListsOk, IdsOk, DisOk;
    var k := NameAt(h, name, 0);
    if k < |h.listeners| {
      assert h.listeners[k] in h.lmem;
    } else {
      forall x | x in h.lmem ensures h.lmem[x].name != name {
        var j :| 0 <= j < |h.listeners| && h.listeners[j] == x;
      }
    }
  }

  predicate CannotMove(x: Lsn, name: string, t: Ptr)
  {
    x.name == name && !Star(x.connectTo) && x.tr != t && (x.tr == 0 || t == 0)
  }

  /** What the program's callers of install_listener keep to: only a smart-socket listener is
      installed without a transport. */
  predicate Honest(ev: Event)
  {
    ev.Listen? && ev.t == 0 ==> Star(ev.connectTo)
  }

  predicate TransportsOk(lmem: map<Ptr, Lsn>)
  {
    forall l :: l in lmem && lmem[l].tr == 0 ==> Star(lmem[l].connectTo)
  }

  lemma {:induction false} DisconnectListeners(h: Heap, t: Ptr)
    requires Ok(h, {})
    ensures forall l :: l in RunDisconnects(h, t).lmem ==> l in h.lmem && RunDisconnects(h, t).lmem[l] == h.lmem[l]
    decreases if t in h.dis then |h.dis[t]| else 0
  {
    hide Ok, Close, ClosedDis;
    if t in h.dis && h.dis[t] != [] {
      CallbackUnlinks(h, t);
      EntryAllocated(h, t);
      match h.dis[t][0] {
        case OfSocket(p) => CloseOk(h, p);
        case OfListener(l) =>
      }
      DisconnectListeners(Callback(h, h.dis[t][0]), t);
    }
  }

  /** Packets and socket events do not touch the listeners. */
  lemma StepListeners(h: Heap, ev: Event)
    requires Ok(h, {}) && !ev.Listen? && !ev.Unlisten? && !ev.Offline?
    ensures Step(h, ev).lmem == h.lmem
  {
    hide Ok, Close, CloseAll, ClosedDis, Find;
    match ev
    case RequestFails(s) => if s in h.mem { CloseOk(h, s); }
    case CloseMsg(t, x, y) => if Find(h, y, x) != 0 { CloseOk(h, Find(h, y, x)); }
    case Data(t, x, y, _, _) => if Find(h, y, x) != 0 { CloseOk(h, Find(h, y, x)); }
    case Writable(p, _, _) => if p in h.mem { CloseOk(h, p); }
    case Feed(p, _, _) => if LocalPair(h.mem, p) { CloseOk(h, h.mem[p].peer); }
    case Eof(p) => if p in h.mem { CloseOk(h, p); }
    case _ =>
  }

  lemma StepTransports(h: Heap, ev: Event)
    requires Ok(h, {}) && TransportsOk(h.lmem) && Honest(ev)
    ensures TransportsOk(Step(h, ev).lmem)
  {
    hide Ok, RunDisconnects, NameAt;
    match ev
    case Listen(_, _, _, _, _) =>
    case Unlisten(_) =>
    case Offline(t) => DisconnectListeners(h, t);
    case _ => hide Step; StepListeners(h, ev);
  }

  lemma {:induction false} RunTransports(evs: seq<Event>)
    requires forall ev :: ev in evs ==> Honest(ev)
    ensures TransportsOk(Run(evs).lmem)
  {
    hide Ok, Step, Honest, TransportsOk;
    if evs == [] {
      NoListeners();
    } else {
      RunTransports(evs[..|evs| - 1]);
      StepTransports(Run(evs[..|evs| - 1]), evs[|evs| - 1]);
    }
  }

  lemma NoListeners()
    ensures TransportsOk(map[])
  {
  }

  /** In every run of which this holds, no install_listener with a transport dies. */
  lemma InstallNeverDies(evs: seq<Event>, name: string, connectTo: string, t: Ptr, noRebind: bool, l: Ptr)
    requires (forall ev :: ev in evs ==> Honest(ev)) && t != 0
    ensures Install(Run(evs), name, connectTo, t, noRebind, l).1 != Dies
  {
    hide Ok, Run, Install;
    RunTransports(evs);
    InstallDiesIff(Run(evs), name, connectTo, t, noRebind, l);
  }

  // --- a read handed to a local peer ---

  /** After it has handed data to a local peer, local_socket_event_func goes on using the
      socket that it read from.  That socket is still there, whatever the peer did, if and
      only if not all three hold: the peer's write failed, the peer had nothing queued, and
      the socket itself had nothing queued. */
  lemma ReaderSurvivesIff(h: Heap, p: Ptr, blocks: bool, fails: bool)
    requires Ok(h, {}) && LocalPair(h.mem, p)
    ensures var q := h.mem[p].peer;
            p in Step(h, Feed(p, blocks, fails)).mem <==> !(fails && h.mem[q].queued == 0 && h.mem[p].queued == 0)
  {
    LocalPairPeer(h, p);
  }

  lemma {:induction false} RunSnoc(evs: seq<Event>, ev: Event)
    ensures Run(evs + [ev]) == Step(Run(evs), ev)
  {
    assert (evs + [ev])[..|evs|] == evs;
  }

  /** A client connects. */
  lemma ClientHeap()
    ensures var h := Run([] + [Accept(1, 2)]);
            && h.nextId == 2 && h.mem.Keys == {1, 2}
            && h.mem[1] == Sock(Local, 1, false, 2, 0, 0) && h.mem[2] == Sock(Smart, 0, false, 1, 0, 0)
  {
    hide Ok;
    RunSnoc([], Accept(1, 2));
    assert Run([]).mem == map[];
  }

  /** It asks for a service of the host. */
  lemma ServiceHeap()
    ensures var h := Run([] + [Accept(1, 2)] + [RequestHost(2, 3)]);
            h.mem.Keys == {1, 3} && LocalPair(h.mem, 3) && h.mem[3].queued == 0 && h.mem[1].queued == 0 && h.mem[3].peer == 1
  {
    hide Ok;
    ClientHeap();
    RunSnoc([] + [Accept(1, 2)], RequestHost(2, 3));
  }

  /** It can happen: the service has output for a client that has gone. */
  lemma ReaderCanBeFreed()
    ensures exists evs, p :: LocalPair(Run(evs).mem, p) && p !in Run(evs + [Feed(p, false, true)]).mem
  {
    hide Run, Step, Ok;
    var evs := [] + [Accept(1, 2)] + [RequestHost(2, 3)];
    ServiceHeap();
    ReaderSurvivesIff(Run(evs), 3, false, true);
    RunSnoc(evs, Feed(3, false, true));
  }

  /** What was listed keeps its id, and what is newly listed has an id never given out before. */
  ghost predicate IdsKept(h: Heap, h': Heap)
  {
    && h.nextId <= h'.nextId
    && forall p :: p in h'.list && p in h'.mem ==>
         (p in h.list && p in h.mem && h.mem[p].id == h'.mem[p].id) || h.nextId <= h'.mem[p].id
  }

  lemma CloseIds(h: Heap, p: Ptr)
    requires Ok(h, {}) && p in h.mem
    ensures Ok(Close(h, p), {}) && IdsKept(h, Close(h, p))
  {
    hide ListsOk, IdsOk, DisOk, ListenersOk, Close, PeersOk;
    CloseOk(h, p);
    var q := h.mem[p].peer;
    WithoutProps(h.list, q);
    WithoutProps(Without(h.list, q), p);
  }

  lemma IdsKeptTrans(h: Heap, h1: Heap, h2: Heap)
    requires IdsKept(h, h1) && IdsKept(h1, h2)
    ensures IdsKept(h, h2)
  {
  }

  lemma {:induction false} CloseAllIds(h: Heap, t: Ptr)
    requires Ok(h, {})
    ensures IdsKept(h, CloseAll(h, t))
    decreases |h.list|
  {
    hide Ok, Close, IdsKept;
    ListedAllocated(h);
    var k := FirstOn(h, t, 0);
    if k == |h.list| {
      IdsKeptSame(h, h);
    } else {
      var h1 := Close(h, h.list[k]);
      CloseShrinks(h, h.list[k], t);
      CloseIds(h, h.list[k]);
      CloseAllIds(h1, t);
      IdsKeptTrans(h, h1, CloseAll(h1, t));
    }
  }

  lemma IdsKeptSame(h: Heap, h': Heap)
    requires Ok(h, {}) && h'.list == h.list && h'.nextId == h.nextId
    requires forall p :: p in h.list && p in h'.mem ==> p in h.mem && h'.mem[p].id == h.mem[p].id
    ensures IdsKept(h, h')
  {
  }

  lemma {:induction false} DisconnectIds(h: Heap, t: Ptr)
    requires Ok(h, {})
    ensures IdsKept(h, RunDisconnects(h, t))
    decreases if t in h.dis then |h.dis[t]| else 0
  {
    hide Ok, Close, IdsKept;
    if t !in h.dis || h.dis[t] == [] {
      ListedAllocated(h);
      IdsKeptSame(h, h);
    } else {
      CallbackUnlinks(h, t);
      EntryAllocated(h, t);
      var h1 := Callback(h, h.dis[t][0]);
      match h.dis[t][0] {
        case OfSocket(p) => CloseIds(h, p);
        case OfListener(l) => ListedAllocated(h); IdsKeptSame(h, h1);
      }
      DisconnectIds(h1, t);
      IdsKeptTrans(h, h1, RunDisconnects(h1, t));
    }
  }

  /** Events that create sockets or leave the list as it is. */
  lemma StepIdsOpen(h: Heap, ev: Event)
    requires Ok(h, {})
    requires ev.Accept? || ev.Forward? || ev.Choose? || ev.Request? || ev.RequestHost? || ev.Open? || ev.Ready?
             || ev.Listen? || ev.Unlisten?
    ensures IdsKept(h, Step(h, ev))
  {
    hide PeersOk, IdsOk, DisOk, ListenersOk;
  }

  lemma EnqueueIds(h: Heap, s: Ptr, blocks: bool, fails: bool)
    requires Ok(h, {}) && s in h.mem
    ensures PeersOk(h.mem, {}) && IdsKept(h, EnqueueLocal(h, s, blocks, fails).0)
  {
    hide Ok, Close, IdsKept;
    ListedAllocated(h);
    if h.mem[s].queued == 0 && fails { CloseIds(h, s); } else { IdsKeptSame(h, EnqueueLocal(h, s, blocks, fails).0); }
  }

  lemma IdsKeptSent(h: Heap, h': Heap, sent: seq<Packet>)
    requires IdsKept(h, h')
    ensures IdsKept(h, h'.(sent := sent))
  {
  }

  lemma StepIds(h: Heap, ev: Event)
    requires Ok(h, {})
    ensures IdsKept(h, Step(h, ev))
  {
    hide Ok, Close, CloseAll, RunDisconnects, IdsKept, EnqueueLocal;
    ListedAllocated(h);
    match ev
    case RequestFails(s) => if s in h.mem { CloseIds(h, s); } IdsKeptSame(h, h);
    case CloseMsg(t, x, y) => if Find(h, y, x) != 0 { CloseIds(h, Find(h, y, x)); } IdsKeptSame(h, h);
    case Data(t, x, y, blocks, fails) =>
      var s := Find(h, y, x);
      if s != 0 && x != 0 && y != 0 {
        EnqueueIds(h, s, blocks, fails);
        var h1 := EnqueueLocal(h, s, blocks, fails).0;
        IdsKeptSent(h, h1, Step(h, ev).sent);
      } else {
        IdsKeptSame(h, h);
      }
    case Writable(p, _, _) =>
      if p in h.mem && h.mem[p].kind == Local && h.mem[p].queued > 0 && (ev.fails || (ev.done && h.mem[p].closing)) {
        CloseIds(h, p);
      } else {
        IdsKeptSame(h, Step(h, ev));
      }
    case Feed(p, blocks, fails) =>
      if LocalPair(h.mem, p) { EnqueueIds(h, h.mem[p].peer, blocks, fails); } else { IdsKeptSame(h, h); }
    case Eof(p) => if p in h.mem { CloseIds(h, p); } IdsKeptSame(h, h);
    case Offline(t) => DisconnectIds(h, t);
    case InputEnds(t) => CloseAllIds(h, t);
    case _ => StepIdsOpen(h, ev);
  }

  /** An id, once given out, is never given out again: whatever happens later, a listed socket
      either was listed before, under the same id, or has an id from the unused range. */
  lemma {:induction false} IdsNeverReused(evs: seq<Event>, more: seq<Event>)
    ensures IdsKept(Run(evs), Run(evs + more))
    decreases |more|
  {
    hide Step, Ok, IdsKept;
    if more == [] {
      assert evs + more == evs;
      ListedAllocated(Run(evs));
      IdsKeptSame(Run(evs), Run(evs));
    } else {
      var front, last := more[..|more| - 1], more[|more| - 1];
      assert (evs + more)[..|evs + more| - 1] == evs + front;
      IdsNeverReused(evs, front);
      StepIds(Run(evs + front), last);
      IdsKeptTrans(Run(evs), Run(evs + front), Run(evs + more));
    }
  }

  // --- the program's globals, and its loops over them ---

  class Adb {
    var mem: map<Ptr, Sock>
    var list: seq<Ptr>
    var closing: seq<Ptr>
    var nextId: nat
    var dis: map<Ptr, seq<Node>>
    var lmem: map<Ptr, Lsn>
    var listeners: seq<Ptr>
    var sent: seq<Packet>

    ghost function Snap(): (h: Heap)
      reads this
    {
      Heap(mem, list, closing, nextId, dis, lmem, listeners, sent)
    }

    ghost predicate Valid()
      reads this
    {
      Ok(Snap(), {})
    }

    constructor ()
      ensures Valid() && Snap() == Run([])
    {
      mem, list, closing, nextId, dis, lmem, listeners, sent := map[], [], [], 1, map[], map[], [], [];
    }

    /** find_local_socket. */
    method FindLocal(id: nat, peerId: nat) returns (s: Ptr)
      requires Valid()
      ensures s == Find(Snap(), id, peerId)
      ensures s == 0 ==> forall p :: p in list && p in mem && mem[p].id == id ==>
                           peerId != 0 && (mem[p].peer in mem ==> mem[mem[p].peer].id != peerId)
    {
      ListedAllocated(Snap());
      s := 0;
      var i := 0;
      while i < |list| && mem[list[i]].id != id
        invariant i <= |list| && IdAt(Snap(), id, 0) == IdAt(Snap(), id, i)
      {
        i := i + 1;
      }
      if i < |list| {
        var p := list[i];
        if peerId == 0 || (mem[p].peer in mem && mem[mem[p].peer].id == peerId) {
          s := p;
        }
        SameIdSameSocket(Snap(), p);
      } else {
        NoIdBefore(Snap(), id);
      }
    }

    /** s->close(s) when the peer is gone. */
    method CloseLoneSocket(p: Ptr)
      requires p in mem
      modifies this
      ensures Snap() == CloseLone(old(Snap()), p)
      ensures forall r :: r in old(mem) && r != p ==> r in mem
    {
      match mem[p].kind
      case Local =>
        if mem[p].closing || mem[p].queued == 0 {
          list, closing := Without(list, p), Without(closing, p);
          mem := mem - {p};
        } else {
          list, closing := Without(list, p), closing + [p];
          mem := mem[p := mem[p].(closing := true, id := 0)];
        }
      case Remote =>
        if mem[p].tr in dis {
          dis := dis[mem[p].tr := Without(dis[mem[p].tr], OfSocket(p))];
        }
        mem := mem - {p};
      case Smart =>
        mem := mem - {p};
    }

    /** s->close(s). */
    method CloseSocket(p: Ptr)
      requires Valid() && p in mem
      modifies this
      ensures PeersOk(old(mem), {}) && Snap() == Close(old(Snap()), p) && Valid()
    {
      hide ListsOk, IdsOk, DisOk, ListenersOk, CloseLone, Closed, ClosedDis;
      PeersOfOk(Snap());
      CloseOk(Snap(), p);
      var q := mem[p].peer;
      assert PeerOk(mem, p, {});
      if q != 0 {
        if mem[p].kind == Local && mem[q].kind == Remote {
          sent := sent + [Clse(mem[q].tr, mem[p].id, mem[q].id)];
        }
        mem := mem[p := mem[p].(peer := 0)];
        mem := mem[q := mem[q].(peer := 0)];
        CloseLoneSocket(q);
      }
      CloseLoneSocket(p);
    }

    /** close_all_sockets, with its restart after each close. */
    method CloseAllSockets(t: Ptr)
      requires Valid()
      modifies this
      ensures Valid() && Snap() == CloseAll(old(Snap()), t)
    {
      var i := 0;
      while i < |list|
        invariant Valid() && i <= |list|
        invariant (ListedAllocated(Snap()); FirstOn(Snap(), t, 0) == FirstOn(Snap(), t, i))
        invariant CloseAll(Snap(), t) == CloseAll(old(Snap()), t)
        decreases |list|, |list| - i
      {
        ListedAllocated(Snap());
        var s := list[i];
        if mem[s].tr == t || (mem[s].peer in mem && mem[mem[s].peer].tr == t) {
          CloseShrinks(Snap(), s, t);
          CloseSocket(s);
          i := 0;
        } else {
          i := i + 1;
        }
      }
    }

    /** free_listener. */
    method FreeListenerAt(l: Ptr)
      requires l in lmem
      modifies this
      ensures Snap() == FreeListener(old(Snap()), l)
    {
      listeners := Without(listeners, l);
      if lmem[l].tr in dis {
        dis := dis[lmem[l].tr := Without(dis[lmem[l].tr], OfListener(l))];
      }
      lmem := lmem - {l};
    }

    /** run_transport_disconnects: the entry after the current one is read before the
        callback, which may free the current one, and it is still on the list afterwards. */
    method RunTransportDisconnects(t: Ptr)
      requires Valid()
      modifies this
      ensures Valid() && Snap() == RunDisconnects(old(Snap()), t)
    {
      hide Ok, Close;
      if t !in dis { return; }
      var more := dis[t] != [];
      while more
        invariant Valid() && t in dis && more == (dis[t] != [])
        invariant RunDisconnects(Snap(), t) == RunDisconnects(old(Snap()), t)
        decreases |dis[t]|
      {
        var cur := dis[t][0];
        var next := dis[t][1..];
        CallbackUnlinks(Snap(), t);
        EntryAllocated(Snap(), t);
        match cur {
          case OfSocket(p) => CloseSocket(p);
          case OfListener(l) => FreeListenerAt(l);
        }
        assert dis[t] == next;
        more := next != [];
      }
    }

    /** install_listener. */
    method InstallListener(name: string, connectTo: string, t: Ptr, noRebind: bool, l: Ptr) returns (st: Status)
      requires Valid()
      modifies this
      ensures Valid() && (Snap(), st) == Install(old(Snap()), name, connectTo, t, noRebind, l)
    {
      hide PeersOk, ListsOk, IdsOk, DisOk;
      InstallOk(Snap(), name, connectTo, t, noRebind, l);
      ghost var h := Snap();
      for i := 0 to |listeners|
        invariant Snap() == h && NameAt(h, name, 0) == NameAt(h, name, i)
      {
        var x := listeners[i];
        if lmem[x].name == name {
          if Star(lmem[x].connectTo) { return InternalError; }
          if noRebind { return CannotRebind; }
          if lmem[x].tr != t {
            if lmem[x].tr == 0 || t == 0 { return Dies; }
            if lmem[x].tr in dis {
              dis := dis[lmem[x].tr := Without(dis[lmem[x].tr], OfListener(x))];
            }
            dis := Register(dis, t, OfListener(x));
          }
          lmem := lmem[x := lmem[x].(connectTo := connectTo, tr := t)];
          return Installed;
        }
      }
      if l == 0 || l in lmem { return CannotBind; }
      lmem := lmem[l := Lsn(name, connectTo, t)];
      listeners := listeners + [l];
      if t != 0 {
        dis := Register(dis, t, OfListener(l));
      }
      return Installed;
    }

    /** remove_all_listeners: exactly the smart-socket listeners stay. */
    method RemoveAllListeners()
      requires Valid()
      modifies this
      ensures Valid()
      ensures forall l :: l in lmem <==> l in old(lmem) && Star(old(lmem)[l].connectTo)
      ensures forall l :: l in lmem ==> lmem[l] == old(lmem)[l]
      ensures mem == old(mem) && list == old(list) && closing == old(closing)
    {
      hide Ok;
      ListenersAllocated(Snap());
      var todo := listeners;
      while todo != []
        invariant Valid() && mem == old(mem) && list == old(list) && closing == old(closing)
        invariant NoDup(todo) && forall l :: l in todo ==> l in lmem
        invariant forall l :: l in lmem ==> l in old(lmem) && lmem[l] == old(lmem)[l]
        invariant forall l :: l in lmem && l !in todo ==> Star(lmem[l].connectTo)
        invariant forall l :: l in old(lmem) && Star(old(lmem)[l].connectTo) ==> l in lmem
        decreases |todo|
      {
        var l := todo[0];
        assert todo == [l] + todo[1..];
        todo := todo[1..];
        if !Star(lmem[l].connectTo) {
          FreeListenerOk(Snap(), l);
          FreeListenerAt(l);
        }
      }
    }

    /** create_local_socket and install_local_socket. */
    method AddLocalSocket(p: Ptr, t: Ptr)
      modifies this
      ensures Snap() == AddLocal(old(Snap()), p, t)
    {
      mem := mem[p := Sock(Local, nextId, false, 0, t, 0)];
      list := list + [p];
      nextId := nextId + 1;
    }

    /** create_remote_socket or connect_to_smartsocket, with both peer pointers set. */
    method AttachSocket(p: Ptr, q: Ptr, kind: Kind, id: nat, t: Ptr)
      requires p in mem
      modifies this
      ensures Snap() == Attach(old(Snap()), p, q, kind, id, t)
    {
      mem := mem[p := mem[p].(peer := q)];
      mem := mem[q := Sock(kind, id, false, p, t, 0)];
      if kind == Remote {
        dis := Register(dis, t, OfSocket(q));
      }
    }

    /** handle_packet, A_OPEN. */
    method HandleOpenPacket(t: Ptr, x: nat, found: bool, p: Ptr, q: Ptr)
      modifies this
      ensures Snap() == HandleOpen(old(Snap()), t, x, found, p, q)
    {
      if x == 0 || t == 0 { return; }
      if !found {
        sent := sent + [Clse(t, 0, x)];
      } else if nextId < MAX_ID && p != 0 && p !in mem && q != 0 && q !in mem && p != q {
        var id := nextId;
        AddLocalSocket(p, 0);
        AttachSocket(p, q, Remote, x, t);
        sent := sent + [Okay(t, id, x)];
      }
    }

    /** handle_packet, A_OKAY. */
    method HandleReady(t: Ptr, x: nat, y: nat, q: Ptr)
      requires Valid()
      modifies this
      ensures Snap() == Step(old(Snap()), Ready(t, x, y, q))
    {
      hide Ok, Attach;
      if x == 0 || y == 0 || t == 0 || q == 0 || q in mem { return; }
      var s := FindLocal(y, 0);
      if s != 0 && mem[s].peer == 0 {
        AttachSocket(s, q, Remote, x, t);
      }
    }

    /** handle_packet, A_CLSE. */
    method HandleClose(t: Ptr, x: nat, y: nat)
      requires Valid()
      modifies this
      ensures Snap() == Step(old(Snap()), CloseMsg(t, x, y))
    {
      hide Ok, Close, Find;
      if y == 0 { return; }
      var s := FindLocal(y, x);
      if s == 0 { return; }
      var q := mem[s].peer;
      if x == 0 && q in mem && mem[q].tr != t { return; }
      CloseSocket(s);
    }

    /** local_socket_enqueue. */
    method EnqueueSocket(s: Ptr, blocks: bool, fails: bool) returns (all: bool)
      requires Valid() && s in mem
      modifies this
      ensures PeersOk(old(mem), {}) && (Snap(), all) == EnqueueLocal(old(Snap()), s, blocks, fails)
    {
      hide Ok, Close;
      PeersOfOk(Snap());
      all := false;
      if mem[s].queued > 0 {
        mem := mem[s := mem[s].(queued := mem[s].queued + 1)];
      } else if fails {
        CloseSocket(s);
      } else if blocks {
        mem := mem[s := mem[s].(queued := 1)];
      } else {
        all := true;
      }
    }

    /** handle_packet, A_WRTE. */
    method HandleWrite(t: Ptr, x: nat, y: nat, blocks: bool, fails: bool)
      requires Valid()
      modifies this
      ensures Snap() == HandleData(old(Snap()), t, x, y, blocks, fails)
    {
      hide Ok, EnqueueLocal, Find;
      if x == 0 || y == 0 { return; }
      var s := FindLocal(y, x);
      if s == 0 { return; }
      var id := mem[s].id;
      var all := EnqueueSocket(s, blocks, fails);
      if all {
        sent := sent + [Okay(t, id, x)];
      }
    }

    /** local_socket_event_func, FDE_WRITE. */
    method SocketWritable(p: Ptr, done: bool, fails: bool)
      requires Valid() && p in mem && mem[p].kind == Local && mem[p].queued > 0
      modifies this
      ensures Snap() == HandleWritable(old(Snap()), p, done, fails)
    {
      hide ListsOk, IdsOk, DisOk, ListenersOk, Close;
      if fails || (done && mem[p].closing) {
        CloseSocket(p);
      } else if done {
        assert PeerOk(mem, p, {});
        var q := mem[mem[p].peer];
        mem := mem[p := mem[p].(queued := 0)];
        if q.kind == Remote {
          sent := sent + [Okay(q.tr, mem[p].id, q.id)];
        }
      }
    }

    /** smart_socket_enqueue, from the point where the request is known. */
    method SmartRequest(s: Ptr, t: Ptr)
      requires Valid() && s in mem && mem[s].kind == Smart
      modifies this
      ensures Snap() == Step(old(Snap()), Request(s, t))
    {
      hide ListsOk, IdsOk, DisOk, ListenersOk;
      assert PeerOk(mem, s, {});
      var p := mem[s].peer;
      mem := mem[p := mem[p].(peer := 0, tr := if mem[s].tr != 0 then mem[s].tr else t)];
      mem := mem - {s};
    }

    method SmartHostRequest(s: Ptr, s2: Ptr)
      requires Valid() && s in mem && mem[s].kind == Smart && nextId < MAX_ID && s2 != 0 && s2 !in mem
      modifies this
      ensures Snap() == Step(old(Snap()), RequestHost(s, s2))
    {
      hide ListsOk, IdsOk, DisOk, ListenersOk;
      assert PeerOk(mem, s, {});
      var p := mem[s].peer;
      AddLocalSocket(s2, 0);
      mem := mem[p := mem[p].(peer := s2)];
      mem := mem[s2 := mem[s2].(peer := p)];
      mem := mem - {s};
    }

    /** Any event: the program's state moves as Step says, and stays in order. */
    method Handle(ev: Event)
      requires Valid()
      modifies this
      ensures Valid() && Snap() == Step(old(Snap()), ev)
    {
      hide Ok, Close, Attach, SmartRemote, SmartHost, HandleOpen, HandleData, EnqueueLocal,
           HandleWritable, CloseAll, RunDisconnects, Install, FreeListener, Find;
      StepOk(Snap(), ev);
      match ev
      case Accept(p, s) =>
        if nextId < MAX_ID && p != 0 && p !in mem && s != 0 && s !in mem && p != s {
          AddLocalSocket(p, 0);
          AttachSocket(p, s, Smart, 0, 0);
        }
      case Forward(p, t) => if nextId < MAX_ID && p != 0 && p !in mem { AddLocalSocket(p, t); }
      case Choose(s, t) =>
        if s in mem && mem[s].kind == Smart {
          mem := mem[s := mem[s].(tr := t)];
        }
      case Request(s, t) => if s in mem && mem[s].kind == Smart { SmartRequest(s, t); }
      case RequestHost(s, s2) =>
        if s in mem && mem[s].kind == Smart && nextId < MAX_ID && s2 != 0 && s2 !in mem { SmartHostRequest(s, s2); }
      case RequestFails(s) => if s in mem && mem[s].kind == Smart { CloseSocket(s); }
      case Open(t, x, found, p, q) => HandleOpenPacket(t, x, found, p, q);
      case Ready(t, x, y, q) => HandleReady(t, x, y, q);
      case CloseMsg(t, x, y) => HandleClose(t, x, y);
      case Data(t, x, y, blocks, fails) => HandleWrite(t, x, y, blocks, fails);
      case Writable(p, done, fails) =>
        if p in mem && mem[p].kind == Local && mem[p].queued > 0 { SocketWritable(p, done, fails); }
      case Feed(p, blocks, fails) =>
        if p in mem && mem[p].kind == Local && mem[p].peer in mem && mem[mem[p].peer].kind == Local {
          var _ := EnqueueSocket(mem[p].peer, blocks, fails);
        }
      case Eof(p) => if p in mem && mem[p].kind == Local { CloseSocket(p); }
      case Offline(t) => RunTransportDisconnects(t);
      case InputEnds(t) => CloseAllSockets(t);
      case Listen(name, connectTo, t, noRebind, l) => var _ := InstallListener(name, connectTo, t, noRebind, l);
      case Unlisten(l) => if l in lmem { FreeListenerAt(l); }
    }
  }

  /** The program from its start, through any sequence of events. */
  method RunEvents(evs: seq<Event>) returns (adb: Adb)
    ensures fresh(adb) && adb.Valid() && adb.Snap() == Run(evs)
  {
    hide Ok, Step;
    adb := new Adb();
    for i := 0 to |evs|
      invariant fresh(adb) && adb.Valid() && adb.Snap() == Run(evs[..i])
    {
      assert evs[..i + 1][..i] == evs[..i];
      adb.Handle(evs[i]);
    }
    assert evs[..|evs|] == evs;
  }

  lemma EntryAllocated(h: Heap, t: Ptr)
    requires Ok(h, {}) && t in h.dis && h.dis[t] != []
    ensures match h.dis[t][0] case OfSocket(p) => p in h.mem case OfListener(l) => l in h.lmem
  {
    assert h.dis[t][0] in h.dis[t] && NodeOk(h, h.dis[t][0], t);
  }

  lemma ListenersAllocated(h: Heap)
    requires Ok(h, {})
    ensures NoDup(h.listeners) && forall l :: l in h.listeners <==> l in h.lmem
  {
  }

  /** A listed socket is the only one with its id. */
  lemma SameIdSameSocket(h: Heap, p: Ptr)
    requires Ok(h, {}) && p in h.list && p in h.mem
    ensures forall q :: q in h.list && q in h.mem && h.mem[q].id == h.mem[p].id ==> q == p
  {
  }

  lemma NoIdBefore(h: Heap, id: nat)
    requires Ok(h, {}) && (forall p :: p in h.list ==> p in h.mem) && IdAt(h, id, 0) == |h.list|
    ensures forall p :: p in h.list && p in h.mem ==> h.mem[p].id != id
  {
  }
}
