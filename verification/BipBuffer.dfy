/** One direction of the Win32 port's in-process socket pair: a circular buffer in two
    regions.  Region A is buff[aStart..aEnd]; once A reaches the end of the array, region B
    grows from the front, buff[..bEnd].  The class is the part of bip_buffer_write and
    bip_buffer_read that runs under the lock; module BipWakeup has the waiting. */
module BipBuffer {
  import opened Bytes

  const SIZE := 4096

  function Min(a: int, b: int): (m: int)
  {
    if a < b then a else b
  }

  class Bip {
    var aStart: nat
    var aEnd: nat
    var bEnd: nat
    var canWrite: bool
    var canRead: bool
    var evtWrite: bool
    var evtRead: bool
    var closed: bool
    const buff: array<byte>

    ghost predicate Valid()
      reads this, buff
    {
      && buff.Length == SIZE
      && bEnd <= aStart <= aEnd <= SIZE
      && (bEnd > 0 ==> aEnd == SIZE)
      && (aStart == aEnd ==> aEnd == 0)
      && canRead == (aStart < aEnd)
      && canWrite == !(aEnd == SIZE && bEnd == aStart)
      && (canRead ==> evtRead) && (canWrite ==> evtWrite)
      && (!closed ==> evtRead == canRead && evtWrite == canWrite)
    }

    ghost function Regions(): (s: Bytes)
      requires bEnd <= aStart <= aEnd <= buff.Length
      reads this, buff
    {
      buff[aStart..aEnd] + buff[..bEnd]
    }

    /** The bytes in the buffer, in the order in which they are read. */
    ghost function Contents(): (s: Bytes)
      requires Valid()
      reads this, buff
    {
      Regions()
    }

    constructor ()
      ensures Valid() && fresh(buff) && Contents() == [] && !closed
    {
      aStart, aEnd, bEnd := 0, 0, 0;
      canWrite, canRead := true, false;
      evtWrite, evtRead, closed := true, false, false;
      buff := new byte[SIZE](_ => 0);
    }

    /** Appends to region A what fits between its end and the end of the array. */
    method FillA(src: Bytes) returns (n: nat)
      requires bEnd == 0 <= aStart <= aEnd < buff.Length == SIZE
      modifies this`aEnd, buff
      ensures n == Min(|src|, SIZE - old(aEnd)) && aEnd == old(aEnd) + n
      ensures Regions() == old(Regions()) + src[..n]
    {
      n := Min(SIZE - aEnd, |src|);
      forall k | 0 <= k < n {
        buff[aEnd + k] := src[k];
      }
      aEnd := aEnd + n;
      assert buff[aStart..aEnd] == old(buff[aStart..aEnd]) + src[..n];
    }

    /** Appends to region B what fits below region A. */
    method FillB(src: Bytes) returns (n: nat)
      requires bEnd <= aStart <= aEnd <= buff.Length == SIZE
      modifies this`bEnd, buff
      ensures n == Min(|src|, aStart - old(bEnd)) && bEnd == old(bEnd) + n
      ensures Regions() == old(Regions()) + src[..n]
    {
      n := Min(aStart - bEnd, |src|);
      forall k | 0 <= k < n {
        buff[bEnd + k] := src[k];
      }
      bEnd := bEnd + n;
      assert buff[..bEnd] == old(buff[..bEnd]) + src[..n];
      assert buff[aStart..aEnd] == old(buff[aStart..aEnd]);
    }

    /** bip_buffer_close: both events are set, so that no one waits; what is held stays. */
    method Close()
      requires Valid()
      modifies this`closed, this`evtRead, this`evtWrite
      ensures Valid() && closed && evtRead && evtWrite && Contents() == old(Contents())
    {
      closed := true;
      if !canRead { evtRead := true; }
      if !canWrite { evtWrite := true; }
    }

    /** bip_buffer_write, when it does not have to wait: as many bytes as fit are appended, and
        never none; a closed buffer that is full is an error. */
    method Write(src: Bytes) returns (count: int)
      requires Valid() && (canWrite || closed || src == [])
      modifies this, buff
      ensures Valid() && closed == old(closed)
      ensures old(canWrite) || src == [] ==> count == Min(|src|, SIZE - |old(Contents())|) && (src != [] ==> count > 0)
      ensures count < 0 <==> !old(canWrite) && src != []
      ensures Contents() == old(Contents()) + src[..if count < 0 then 0 else count]
    {
      assert src[..0] == [];
      if src == [] { return 0; }
      if !canWrite { return -1; }
      count := Append(src);
    }

    /** The part under the lock, with can_write set. */
    method Append(src: Bytes) returns (count: int)
      requires Valid() && canWrite && src != []
      modifies this, buff
      ensures Valid() && closed == old(closed)
      ensures count == Min(|src|, SIZE - |old(Contents())|) && count > 0
      ensures Contents() == old(Contents()) + src[..count]
    {
      count := 0;
      if aEnd < SIZE {
        count := FillA(src);
        if aEnd == SIZE && aStart == 0 {
          canWrite, evtWrite := false, false;
        }
      }
      if canWrite && count < |src| {
        assert aStart - bEnd > 0;
        var n := FillB(src[count..]);
        assert src[..count] + src[count..][..n] == src[..count + n];
        count := count + n;
        if bEnd == aStart {
          canWrite, evtWrite := false, false;
        }
      }
      assert count > 0;
      if !canRead {
        canRead, evtRead := true, true;
      }
    }

    /** Takes up to len bytes from region A. */
    method TakeA(len: nat) returns (bs: Bytes)
      requires bEnd <= aStart <= aEnd <= buff.Length
      modifies this`aStart
      ensures |bs| == Min(len, old(aEnd - aStart)) && aStart == old(aStart) + |bs|
      ensures bs + Regions() == old(Regions())
    {
      var n := Min(aEnd - aStart, len);
      bs := buff[aStart..aStart + n];
      aStart := aStart + n;
      assert bs + buff[aStart..aEnd] == old(buff[aStart..aEnd]);
    }

    /** Region A is used up: region B takes its place. */
    method Wrap()
      requires bEnd <= aStart == aEnd <= buff.Length
      modifies this`aStart, this`aEnd, this`bEnd
      ensures aStart == 0 && aEnd == old(bEnd) && bEnd == 0 && Regions() == old(Regions())
    {
      aStart, aEnd, bEnd := 0, bEnd, 0;
    }

    /** bip_buffer_read, when it does not have to wait: as many bytes as there are, and never
        none, oldest first; a closed buffer that is empty is an error. */
    method Read(len: nat) returns (count: int, dst: Bytes)
      requires Valid() && (canRead || closed || len == 0)
      modifies this
      ensures Valid() && closed == old(closed)
      ensures old(canRead) || len == 0 ==> count == |dst| == Min(len, |old(Contents())|) && (len > 0 ==> count > 0)
      ensures count < 0 <==> !old(canRead) && len > 0
      ensures old(Contents()) == dst + Contents()
    {
      if len == 0 { return 0, []; }
      if !canRead { return -1, []; }
      dst := Take(len);
      count := |dst|;
    }

    /** The part under the lock, with can_read set. */
    method Take(len: nat) returns (dst: Bytes)
      requires Valid() && canRead && len > 0
      modifies this
      ensures Valid() && closed == old(closed)
      ensures |dst| == Min(len, |old(Contents())|) && |dst| > 0
      ensures old(Contents()) == dst + Contents()
    {
      assert aEnd - aStart > 0;
      dst := TakeA(len);
      if aStart == aEnd {
        Wrap();
        ghost var left := Regions();
        var more := TakeA(len - |dst|);
        assert dst + left == (dst + more) + Regions();
        dst := dst + more;
        if aStart == aEnd {
          Wrap();
          canRead, evtRead := false, false;
        }
      }
      assert |dst| > 0;
      if !canWrite {
        canWrite, evtWrite := true, true;
      }
    }
  }

  datatype Op = OpWrite(src: Bytes) | OpRead(len: nat) | OpClose

  /** What went in, what came out and what is held. */
  datatype Ledger = Ledger(accepted: Bytes, delivered: Bytes, held: Bytes)

  /** A FIFO of SIZE bytes: as much as fits goes in, as much as there is comes out, before and
      after a close. */
  function FifoOp(l: Ledger, op: Op): (l': Ledger)
    requires |l.held| <= SIZE
    ensures |l'.held| <= SIZE
  {
    match op
    case OpWrite(src) =>
      var n := Min(|src|, SIZE - |l.held|);
      l.(accepted := l.accepted + src[..n], held := l.held + src[..n])
    case OpRead(len) =>
      var n := Min(len, |l.held|);
      l.(delivered := l.delivered + l.held[..n], held := l.held[n..])
    case OpClose => l
  }

  function Fifo(ops: seq<Op>): (l: Ledger)
    ensures |l.held| <= SIZE
  {
    if ops == [] then Ledger([], [], []) else FifoOp(Fifo(ops[..|ops| - 1]), ops[|ops| - 1])
  }

  /** First in, first out: nothing is lost, added or reordered. */
  lemma {:induction false} FifoOrder(ops: seq<Op>)
    ensures Fifo(ops).accepted == Fifo(ops).delivered + Fifo(ops).held
  {
    if ops != [] {
      FifoOrder(ops[..|ops| - 1]);
      var l := Fifo(ops[..|ops| - 1]);
      if ops[|ops| - 1].OpRead? {
        var n := Min(ops[|ops| - 1].len, |l.held|);
        assert l.held == l.held[..n] + l.held[n..];
      }
    }
  }

  /** Any sequence of calls on a new buffer, where a call that would have to wait is
      skipped, does what the FIFO does. */
  method Transfer(ops: seq<Op>) returns (l: Ledger)
    ensures l == Fifo(ops)
  {
    var bip := new Bip();
    l := Ledger([], [], []);
    for i := 0 to |ops|
      invariant bip.Valid() && fresh(bip) && fresh(bip.buff)
      invariant l == Fifo(ops[..i]) && l.held == bip.Contents()
    {
      assert ops[..i + 1][..i] == ops[..i];
      match ops[i]
      case OpWrite(src) =>
        if src == [] || bip.canWrite || bip.closed {
          var n := bip.Write(src);
          n := if n < 0 then 0 else n;
          l := l.(accepted := l.accepted + src[..n], held := l.held + src[..n]);
        }
      case OpRead(len) =>
        if len == 0 || bip.canRead || bip.closed {
          var _, bs := bip.Read(len);
          assert l.held[..|bs|] == bs && l.held[|bs|..] == bip.Contents();
          l := l.(delivered := l.delivered + bs, held := l.held[|bs|..]);
        }
      case OpClose => bip.Close();
    }
    assert ops[..|ops|] == ops;
  }
}
