/** fastboot's sparse download: the sparse library hands over data in pieces of any length,
    and the sender re-blocks it so that every USB write but the last is a multiple of the
    buffer size. */
module Sparse {
  import opened Bytes

  const USB_BUF_SIZE := 1024

  function Min(a: int, b: int): (m: int)
  {
    if a < b then a else b
  }

  // --- what one callback does to the buffered bytes, as a function ---

  /** First the bytes already held are topped up; a full buffer is written. */
  datatype TopUp = TopUp(writes: seq<Bytes>, held: Bytes, rest: Bytes)

  function Top(held: Bytes, data: Bytes): (r: TopUp)
    requires |held| <= USB_BUF_SIZE
    ensures r.held != [] ==> r.rest == [] && |r.held| < USB_BUF_SIZE
  {
    var take := if held == [] then 0 else Min(USB_BUF_SIZE - |held|, |data|);
    var filled := held + data[..take];
    if |filled| == USB_BUF_SIZE then TopUp([filled], [], data[take..]) else TopUp([], filled, data[take..])
  }

  /** Then whole blocks are written straight from the data, and the rest is held. */
  function Tail(held: Bytes, rest: Bytes): (r: (seq<Bytes>, Bytes))
    requires |held| <= USB_BUF_SIZE && (held != [] ==> rest == [])
    ensures |r.1| <= USB_BUF_SIZE
  {
    if |rest| > USB_BUF_SIZE then
      var n := |rest| - |rest| % USB_BUF_SIZE;
      ([rest[..n]], rest[n..])
    else
      ([], if rest == [] then held else rest)
  }

  /** The USB writes a callback makes and the bytes it leaves in the buffer. */
  function Reblock(held: Bytes, data: Bytes): (r: (seq<Bytes>, Bytes))
    requires |held| <= USB_BUF_SIZE
    ensures |r.1| <= USB_BUF_SIZE
  {
    var top := Top(held, data);
    var (writes, left) := Tail(top.held, top.rest);
    (top.writes + writes, left)
  }

  predicate Blocks(writes: seq<Bytes>)
  {
    forall w :: w in writes ==> |w| > 0 && |w| % USB_BUF_SIZE == 0
  }

  lemma TopKeeps(held: Bytes, data: Bytes)
    requires |held| <= USB_BUF_SIZE
    ensures var r := Top(held, data);
            Blocks(r.writes) && Concat(r.writes) + (r.held + r.rest) == held + data
  {
  }

  lemma TailKeeps(held: Bytes, rest: Bytes)
    requires |held| <= USB_BUF_SIZE && (held != [] ==> rest == [])
    ensures var (writes, left) := Tail(held, rest);
            Blocks(writes) && Concat(writes) + left == held + rest
  {
  }

  /** Nothing is lost or reordered, and each write is a whole number of blocks. */
  lemma ReblockKeeps(held: Bytes, data: Bytes)
    requires |held| <= USB_BUF_SIZE
    ensures var (writes, left) := Reblock(held, data);
            Blocks(writes) && Concat(writes) + left == held + data
  {
    hide Top, Tail, Concat;
    var top := Top(held, data);
    TopKeeps(held, data);
    TailKeeps(top.held, top.rest);
    var (writes, left) := Tail(top.held, top.rest);
    ConcatAppend(top.writes, writes);
    assert (Concat(top.writes) + Concat(writes)) + left == Concat(top.writes) + (Concat(writes) + left);
  }

  /** Exactly how much is held after a callback: an empty buffer takes up to one block and of
      more only what is beyond whole blocks; another is first filled up and, if full, written. */
  lemma HeldExactly(held: Bytes, data: Bytes)
    requires |held| <= 1024
    ensures var beyond := |held| + |data| - (if held == [] then 0 else 1024);
            |Reblock(held, data).1|
              == if beyond < 0 then |held| + |data| else if beyond <= 1024 then beyond else beyond % 1024
  {
  }

  /** A whole download before the flush. */
  function ReblockAll(held: Bytes, chunks: seq<Bytes>): (r: (seq<Bytes>, Bytes))
    requires |held| <= USB_BUF_SIZE
    ensures |r.1| <= USB_BUF_SIZE
    decreases |chunks|
  {
    if chunks == [] then ([], held)
    else
      var (ws, left) := ReblockAll(held, chunks[..|chunks| - 1]);
      var (more, last) := Reblock(left, chunks[|chunks| - 1]);
      (ws + more, last)
  }

  lemma {:induction false} ReblockAllKeeps(held: Bytes, chunks: seq<Bytes>)
    requires |held| <= USB_BUF_SIZE
    ensures var (writes, left) := ReblockAll(held, chunks);
            Blocks(writes) && Concat(writes) + left == held + Concat(chunks)
    decreases |chunks|
  {
    if chunks == [] {
      assert [] + held == held + Concat(chunks);
    } else {
      hide Reblock, Concat;
      var front, c := chunks[..|chunks| - 1], chunks[|chunks| - 1];
      assert chunks == front + [c];
      ReblockAllKeeps(held, front);
      ConcatSnoc(front, c);
      var (ws, left) := ReblockAll(held, front);
      ReblockKeeps(left, c);
      var (more, last) := Reblock(left, c);
      ConcatAppend(ws, more);
      Regroup(Concat(ws), Concat(more), last, left, c, held, Concat(front));
    }
  }

  /** The USB writes of a successful download: the blocks, then what the flush finds. */
  function Writes(held: Bytes, chunks: seq<Bytes>): (ws: seq<Bytes>)
    requires |held| <= USB_BUF_SIZE
  {
    var (ws, left) := ReblockAll(held, chunks);
    if left == [] then ws else ws + [left]
  }

  /** The device receives exactly the image if and only if the buffer was empty to begin
      with: bytes left over from a download that failed go out first. */
  lemma DownloadIsImage(held: Bytes, chunks: seq<Bytes>)
    requires |held| <= USB_BUF_SIZE
    ensures Concat(Writes(held, chunks)) == held + Concat(chunks)
    ensures Concat(Writes(held, chunks)) == Concat(chunks) <==> held == []
  {
    ReblockAllKeeps(held, chunks);
    var (ws, left) := ReblockAll(held, chunks);
    ConcatSnoc(ws, left);
    assert |held + Concat(chunks)| == |held| + |Concat(chunks)|;
    assert left == [] ==> Concat(ws) + left == Concat(ws);
    assert held == [] ==> held + Concat(chunks) == Concat(chunks);
  }

  // --- the code ---

  /** What usb_write does: it takes up to n bytes, or fails. */
  datatype Usb = Took(n: nat) | Error

  predicate Whole(data: Bytes, u: Usb)
  {
    u.Took? && u.n >= |data|
  }

  /** The write that reaches the device: all of it, the beginning of it, or none. */
  function Sent(data: Bytes, u: Usb): (ws: seq<Bytes>)
  {
    if u.Error? then [] else [data[..Min(u.n, |data|)]]
  }

  lemma WholeSent(data: Bytes, u: Usb)
    ensures Whole(data, u) ==> Sent(data, u) == [data]
  {
    assert data[..|data|] == data;
  }

  class Sender {
    const usbBuf: array<byte>
    var usbBufLen: nat
    var usb: seq<Bytes>     // the USB writes that went through

    ghost predicate Valid()
      reads this
    {
      usbBuf.Length == USB_BUF_SIZE && usbBufLen <= USB_BUF_SIZE
    }

    ghost function Held(): (bs: Bytes)
      requires Valid()
      reads this, usbBuf
    {
      usbBuf[..usbBufLen]
    }

    constructor ()
      ensures Valid() && Held() == [] && usb == [] && fresh(usbBuf)
    {
      usbBuf := new byte[USB_BUF_SIZE](_ => 0);
      usbBufLen, usb := 0, [];
    }

    /** _command_data: anything but the whole transfer is an error. */
    method CommandData(data: Bytes, u: Usb) returns (r: int)
      modifies this`usb
      ensures r == if Whole(data, u) then |data| else -1
      ensures usb == old(usb) + Sent(data, u)
    {
      usb := usb + Sent(data, u);
      return if Whole(data, u) then |data| else -1;
    }

    /** memcpy into the buffer at its current length, or at its start. */
    method Keep(at: nat, data: Bytes)
      requires Valid() && at + |data| <= USB_BUF_SIZE
      modifies this`usbBufLen, usbBuf
      ensures Valid() && usbBufLen == at + |data| && Held() == old(usbBuf[..at]) + data
    {
      forall k | 0 <= k < |data| {
        usbBuf[at + k] := data[k];
      }
      usbBufLen := at + |data|;
    }

    /** fb_download_data_sparse_write, lines 230-245.  A full buffer that could not be written
        stays. */
    method TopOff(data: Bytes, u: Usb) returns (r: int, rest: Bytes)
      requires Valid()
      modifies this, usbBuf
      ensures Valid()
      ensures var t := Top(old(Held()), data);
              if t.writes != [] && !Whole(t.writes[0], u) then
                r == -1 && usb == old(usb) + Sent(t.writes[0], u) && Held() == t.writes[0]
              else
                r == 0 && usb == old(usb) + t.writes && Held() == t.held && rest == t.rest
    {
      ghost var held := Held();
      rest := data;
      if usbBufLen > 0 {
        var n := Min(USB_BUF_SIZE - usbBufLen, |data|);
        Keep(usbBufLen, data[..n]);
        rest := data[n..];
        assert Held() == held + data[..n];
      } else {
        assert Held() == held + data[..0];
      }
      if usbBufLen == USB_BUF_SIZE {
        assert usbBuf[..] == Held();
        r := CommandData(usbBuf[..], u);
        if r != USB_BUF_SIZE { return -1, rest; }
        usbBufLen := 0;
      }
      r := 0;
    }

    /** fb_download_data_sparse_write; u1 and u2 are what USB does with the buffer and with the
        blocks.  Neither "internal error" branch is reached. */
    method Write(data: Bytes, u1: Usb, u2: Usb) returns (r: int)
      requires Valid()
      modifies this, usbBuf
      ensures Valid()
      ensures var t := Top(old(Held()), data);
              var (blocks, left) := Tail(t.held, t.rest);
              if t.writes != [] && !Whole(t.writes[0], u1) then
                r == -1 && usb == old(usb) + Sent(t.writes[0], u1) && Held() == t.writes[0]
              else if blocks != [] && !Whole(blocks[0], u2) then
                r == -1 && usb == old(usb) + t.writes + Sent(blocks[0], u2) && Held() == []
              else
                r == 0 && usb == old(usb) + t.writes + blocks && Held() == left
    {
      hide Top, Whole, Sent;
      var rest;
      ghost var t := Top(Held(), data);
      r, rest := TopOff(data, u1);
      if r != 0 { return; }
      assert usb + [] == usb;
      if |rest| > USB_BUF_SIZE {
        assert usbBufLen == 0;
        var n := |rest| - |rest| % USB_BUF_SIZE;
        WholeSent(rest[..n], u2);
        r := CommandData(rest[..n], u2);
        if r != n { return -1; }
        rest := rest[n..];
        if rest == [] { assert Held() == []; }
      }
      if |rest| > 0 {
        assert |rest| <= USB_BUF_SIZE;
        Keep(0, rest);
      }
      r := 0;
    }

    /** The same with a USB pipe that works. */
    method WriteAll(data: Bytes)
      requires Valid()
      modifies this, usbBuf
      ensures Valid() && usb == old(usb) + Reblock(old(Held()), data).0 && Held() == Reblock(old(Held()), data).1
    {
      var r := Write(data, Took(USB_BUF_SIZE), Took(|data|));
      ghost var t := Top(old(Held()), data);
      assert old(usb) + t.writes + Tail(t.held, t.rest).0 == old(usb) + (t.writes + Tail(t.held, t.rest).0);
    }

    /** fb_download_data_sparse_flush: on failure the bytes stay in the buffer. */
    method Flush(u: Usb) returns (r: int)
      requires Valid()
      modifies this
      ensures Valid() && r == (if old(Held()) == [] || Whole(old(Held()), u) then 0 else -1)
      ensures r == 0 ==> Held() == [] && usb == if old(Held()) == [] then old(usb) else old(usb) + [old(Held())]
      ensures r != 0 ==> Held() == old(Held()) && usb == old(usb) + Sent(old(Held()), u)
    {
      if usbBufLen > 0 {
        WholeSent(Held(), u);
        r := CommandData(usbBuf[..usbBufLen], u);
        if r != usbBufLen { return -1; }
        usbBufLen := 0;
      }
      r := 0;
    }
  }

  /** sparse_file_callback and the flush, with a USB pipe that works. */
  method Download(sender: Sender, chunks: seq<Bytes>)
    requires sender.Valid()
    modifies sender, sender.usbBuf
    ensures sender.Valid() && sender.Held() == []
    ensures sender.usb == old(sender.usb) + Writes(old(sender.Held()), chunks)
  {
    ghost var held := sender.Held();
    for i := 0 to |chunks|
      invariant sender.Valid()
      invariant sender.usb == old(sender.usb) + ReblockAll(held, chunks[..i]).0
      invariant sender.Held() == ReblockAll(held, chunks[..i]).1
    {
      assert chunks[..i + 1][..i] == chunks[..i];
      sender.WriteAll(chunks[i]);
    }
    assert chunks[..|chunks|] == chunks;
    var r := sender.Flush(Took(USB_BUF_SIZE));
  }
}
