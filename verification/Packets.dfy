/** The 24-byte packet framing of a TCP transport: send_packet fills in the checksum and the
    magic word, remote_write puts header and payload on the wire, remote_read takes them off
    and checks them. */
module Packets {
  import opened Bytes
  import opened FdIo

  const MAX_PAYLOAD := 4096

  datatype Message = Message(command: word, arg0: word, arg1: word, length: word, check: word, magic: word)

  datatype Packet = Packet(msg: Message, data: Bytes)

  /** What the caller of send_packet provides. */
  datatype Request = Request(command: word, arg0: word, arg1: word, data: Bytes)

  datatype Parsed = Good(p: Packet, rest: Bytes) | Bad

  /** x ^ 0xffffffff on 32 bits. */
  function Complement(x: word): (y: word)
  {
    0xffff_ffff - x
  }

  function Sum(data: Bytes): (n: nat)
  {
    if data == [] then 0 else Sum(data[..|data| - 1]) + data[|data| - 1]
  }

  /** The summing loop of send_packet and check_data, on an unsigned. */
  method Checksum(data: Bytes) returns (sum: word)
    ensures sum == Sum(data) % WORD
    ensures |data| <= MAX_PAYLOAD ==> sum == Sum(data)
  {
    sum := 0;
    for i := 0 to |data|
      invariant sum == Sum(data[..i]) % WORD
    {
      assert data[..i + 1][..i] == data[..i];
      sum := (sum + data[i]) % WORD;
    }
    assert data[..|data|] == data;
    SumBound(data);
  }

  lemma {:induction false} SumBound(data: Bytes)
    ensures Sum(data) <= 255 * |data|
  {
    if data != [] {
      SumBound(data[..|data| - 1]);
    }
  }

  /** send_packet. */
  function Send(r: Request): (p: Packet)
    requires |r.data| < WORD
  {
    Packet(Message(r.command, r.arg0, r.arg1, |r.data|, Sum(r.data) % WORD, Complement(r.command)), r.data)
  }

  function Header(m: Message): (bs: Bytes)
    ensures |bs| == 24
  {
    Word(m.command) + Word(m.arg0) + Word(m.arg1) + Word(m.length) + Word(m.check) + Word(m.magic)
  }

  function UnHeader(bs: Bytes): (m: Message)
    requires |bs| == 24
  {
    Message(UnWord(bs[..4]), UnWord(bs[4..8]), UnWord(bs[8..12]), UnWord(bs[12..16]), UnWord(bs[16..20]), UnWord(bs[20..]))
  }

  /** remote_write. */
  function Emit(p: Packet): (bs: Bytes)
  {
    Header(p.msg) + p.data
  }

  predicate HeaderOk(m: Message)
  {
    m.magic == Complement(m.command) && m.length <= MAX_PAYLOAD
  }

  predicate DataOk(p: Packet)
  {
    Sum(p.data) % WORD == p.msg.check
  }

  /** remote_read on a byte string. */
  function Parse(bs: Bytes): (r: Parsed)
    ensures r.Good? ==> |r.rest| < |bs|
  {
    if |bs| < 24 then Bad
    else
      var m := UnHeader(bs[..24]);
      if !HeaderOk(m) || |bs| - 24 < m.length then Bad
      else
        var p := Packet(m, bs[24..][..m.length]);
        if DataOk(p) then Good(p, bs[24..][m.length..]) else Bad
  }

  /** remote_read on a descriptor, whatever the sizes of its reads. */
  method RemoteRead(fd: Fd, picks: seq<nat>, picks2: seq<nat>) returns (r: Parsed)
    modifies fd
    ensures r.Good? == Parse(old(fd.input)).Good?
    ensures r.Good? ==> r == Parse(old(fd.input)) && fd.input == r.rest
  {
    var ok, head := ReadExactly(fd, 24, picks);
    if !ok { return Bad; }
    var m := UnHeader(head);
    if !HeaderOk(m) { return Bad; }
    var data;
    ok, data := ReadExactly(fd, m.length, picks2);
    if !ok { return Bad; }
    var sum := Checksum(data);
    if sum != m.check { return Bad; }
    r := Good(Packet(m, data), fd.input);
  }

  function ParseAll(bs: Bytes): (ps: seq<Packet>)
    decreases |bs|
  {
    match Parse(bs)
    case Bad => []
    case Good(p, rest) => [p] + ParseAll(rest)
  }

  function EmitAll(rs: seq<Request>): (bs: Bytes)
    requires forall r :: r in rs ==> |r.data| <= MAX_PAYLOAD
  {
    if rs == [] then [] else Emit(Send(rs[0])) + EmitAll(rs[1..])
  }

  /** A packet as the receiver should see it: what the caller gave, with length and checks. */
  predicate Carries(p: Packet, r: Request)
  {
    && p.msg.command == r.command && p.msg.arg0 == r.arg0 && p.msg.arg1 == r.arg1 && p.data == r.data
    && p.msg.length == |r.data| && p.msg.check == Sum(r.data) && p.msg.magic + r.command == 0xffff_ffff
  }

  lemma SendCarries(r: Request)
    requires |r.data| <= MAX_PAYLOAD
    ensures Carries(Send(r), r)
  {
    SumBound(r.data);
  }

  lemma HeaderLayout(m: Message)
    ensures var h := Header(m);
            && h[..4] == Word(m.command) && h[4..8] == Word(m.arg0) && h[8..12] == Word(m.arg1)
            && h[12..16] == Word(m.length) && h[16..20] == Word(m.check) && h[20..24] == Word(m.magic)
  {
    hide Word;
  }

  /** The bytes on the wire, in the order of protocol.txt. */
  lemma WireLayout(r: Request)
    requires |r.data| <= MAX_PAYLOAD
    ensures var bs := Emit(Send(r));
            && |bs| == 24 + |r.data| && bs[..4] == Word(r.command) && bs[4..8] == Word(r.arg0)
            && bs[8..12] == Word(r.arg1) && bs[12..16] == Word(|r.data|) && bs[16..20] == Word(Sum(r.data) % WORD)
            && bs[20..24] == Word(0xffff_ffff - r.command) && bs[24..] == r.data
  {
    hide Header, Word;
    SendCarries(r);
    var h, bs := Header(Send(r).msg), Emit(Send(r));
    HeaderLayout(Send(r).msg);
    assert bs[..4] == h[..4] && bs[4..8] == h[4..8] && bs[8..12] == h[8..12];
    assert bs[12..16] == h[12..16] && bs[16..20] == h[16..20] && bs[20..24] == h[20..24];
  }

  lemma UnHeaderHeader(m: Message)
    ensures UnHeader(Header(m)) == m
  {
    var bs := Header(m);
    assert bs[..4] == Word(m.command) && bs[4..8] == Word(m.arg0) && bs[8..12] == Word(m.arg1);
    assert bs[12..16] == Word(m.length) && bs[16..20] == Word(m.check) && bs[20..] == Word(m.magic);
    UnWordWord(m.command);
    UnWordWord(m.arg0);
    UnWordWord(m.arg1);
    UnWordWord(m.length);
    UnWordWord(m.check);
    UnWordWord(m.magic);
  }

  /** What one side sends the other side reads, with both checks passing. */
  lemma ParseEmit(r: Request, rest: Bytes)
    requires |r.data| <= MAX_PAYLOAD
    ensures var got := Parse(Emit(Send(r)) + rest);
            got.Good? && Carries(got.p, r) && got.rest == rest
  {
    hide Header, UnHeader, Carries;
    var p := Send(r);
    var bs := Emit(p) + rest;
    SendCarries(r);
    assert bs[..24] == Header(p.msg) && bs[24..] == r.data + rest;
    UnHeaderHeader(p.msg);
    assert (r.data + rest)[..|r.data|] == r.data && (r.data + rest)[|r.data|..] == rest;
  }

  /** A whole stream of packets survives the wire: as many, in order, each with its command,
      both ids and its payload. */
  lemma {:induction false} StreamRoundTrip(rs: seq<Request>)
    requires forall r :: r in rs ==> |r.data| <= MAX_PAYLOAD
    ensures var ps := ParseAll(EmitAll(rs));
            |ps| == |rs| && forall k :: 0 <= k < |rs| ==> Carries(ps[k], rs[k])
  {
    hide Emit, Send, Carries;
    if rs != [] {
      hide Parse;
      ParseEmit(rs[0], EmitAll(rs[1..]));
      StreamRoundTrip(rs[1..]);
    }
  }

  /** remote_read takes a packet exactly if its header and its payload are there and both
      checks hold, and then the payload is what follows the header. */
  lemma ParseIff(bs: Bytes)
    ensures var ok := && |bs| >= 24 && UnWord(bs[..4]) + UnWord(bs[20..24]) == 0xffff_ffff
                      && UnWord(bs[12..16]) <= 4096 && 24 + UnWord(bs[12..16]) <= |bs|
                      && Sum(bs[24..24 + UnWord(bs[12..16])]) == UnWord(bs[16..20]);
            && (Parse(bs).Good? <==> ok)
            && (ok ==> && Parse(bs).p.data == bs[24..24 + UnWord(bs[12..16])]
                       && Parse(bs).rest == bs[24 + UnWord(bs[12..16])..])
  {
    if |bs| >= 24 {
      var h, n := bs[..24], UnWord(bs[12..16]);
      assert h[..4] == bs[..4] && h[12..16] == bs[12..16] && h[16..20] == bs[16..20] && h[20..] == bs[20..24];
      if n <= MAX_PAYLOAD && 24 + n <= |bs| {
        assert bs[24..][..n] == bs[24..24 + n] && bs[24..][n..] == bs[24 + n..];
        SumBound(bs[24..24 + n]);
      }
    }
  }

  /** A longer payload is never read back: the receiver drops the connection. */
  lemma OversizeRefused(r: Request, rest: Bytes)
    requires MAX_PAYLOAD < |r.data| < WORD
    ensures Parse(Emit(Send(r)) + rest) == Bad
  {
    var p := Send(r);
    var bs := Emit(p) + rest;
    assert bs[..24] == Header(p.msg);
    UnHeaderHeader(p.msg);
  }

  lemma {:induction false} SumUpdate(data: Bytes, i: nat, b: byte)
    requires i < |data|
    ensures Sum(data[i := b]) == Sum(data) - data[i] + b
  {
    var n := |data| - 1;
    if i == n {
      assert data[i := b][..n] == data[..n];
    } else {
      assert data[i := b][..n] == data[..n][i := b];
      SumUpdate(data[..n], i, b);
    }
  }

  /** The check catches the change of any one payload byte, at any place. */
  lemma OneByteDetected(p: Packet, i: nat, b: byte)
    requires DataOk(p) && i < |p.data| && b != p.data[i]
    ensures !DataOk(p.(data := p.data[i := b]))
  {
    SumUpdate(p.data, i, b);
  }

  /** A corrupted payload of the same length passes exactly when it has the same byte sum;
      so two exchanged bytes go unnoticed, which the CRC that protocol.txt names would see. */
  lemma CorruptionPassesIff(r: Request, data: Bytes)
    requires |r.data| == |data| <= MAX_PAYLOAD
    ensures DataOk(Send(r).(data := data)) <==> Sum(data) == Sum(r.data)
    ensures r.data == [1, 2] && data == [2, 1] ==> DataOk(Send(r).(data := data))
  {
    SumBound(data);
    SumBound(r.data);
    assert Sum([1]) == 1 && Sum([2]) == 2 by { assert [1][..0] == [] && [2][..0] == []; }
    assert Sum([1, 2]) == 3 && Sum([2, 1]) == 3 by { assert [1, 2][..1] == [1] && [2, 1][..1] == [2]; }
  }
}
