/** Requests to the adb server: a string behind four hexadecimal digits of length, which a
    smart socket collects from whatever pieces the connection delivers, and the serial
    number in front of a host request. */
module Requests {
  import opened Bytes
  import opened HexText

  const MAX_PAYLOAD := 4096
  const MAX_REQUEST := 1024

  // --- SendProtocolString and unhex ---

  /** SendProtocolString: the length is clipped to 16 bits, the body is not. */
  function Encode(s: Bytes): (bs: Bytes)
  {
    Hex(if |s| > 0xffff then 0xffff else |s|, 4) + s
  }

  /** The value of a string of hexadecimal digits, or 0xffffffff if there is any other
      character; the arithmetic is on 32 bits. */
  function Unhex(bs: Bytes): (n: word)
  {
    if exists i :: 0 <= i < |bs| && !IsHex(bs[i]) then 0xffff_ffff else HexValue(bs) % WORD
  }

  /** Reducing to 32 bits at each step is the same as reducing at the end. */
  lemma ModStep(a: nat, d: nat)
    ensures ((a % WORD) * 16 + d) % WORD == (16 * a + d) % WORD
  {
  }

  /** unhex. */
  method UnhexScan(bs: Bytes) returns (n: word)
    ensures n == Unhex(bs)
  {
    n := 0;
    for i := 0 to |bs|
      invariant forall k :: 0 <= k < i ==> IsHex(bs[k])
      invariant n == HexValue(bs[..i]) % WORD
    {
      if !IsHex(bs[i]) { return 0xffff_ffff; }
      assert bs[..i + 1][..i] == bs[..i];
      ModStep(HexValue(bs[..i]), Nibble(bs[i]));
      n := (n * 16 + Nibble(bs[i])) % WORD;
    }
    assert bs[..|bs|] == bs;
  }

  lemma UnhexHex(v: nat)
    requires v <= 0xffff
    ensures Unhex(Hex(v, 4)) == v
  {
    assert Pow16(4) == 0x1_0000 by { assert Pow16(1) == 16 && Pow16(2) == 256 && Pow16(3) == 4096; }
    HexRoundTrip(v, 4);
  }

  // --- smart_socket_enqueue ---

  /** What a smart socket does when a packet arrives: wait, give up, or act on a request. */
  datatype Outcome = Wait | Fail | Dispatch(request: Bytes)

  /** The decision, on all the bytes collected so far. */
  function Decide(buf: Bytes): (o: Outcome)
  {
    if |buf| < 4 then Wait
    else
      var len := Unhex(buf[..4]);
      if len < 1 || len > MAX_REQUEST then Fail
      else if len + 4 > |buf| then Wait
      else Dispatch(buf[4..4 + len])
  }

  /** A smart socket: the packet it collects in, and what it has come to. */
  class Smart {
    var buf: Bytes
    var outcome: Outcome

    constructor ()
      ensures buf == [] && outcome == Wait
    {
      buf, outcome := [], Wait;
    }

    /** smart_socket_enqueue up to the point where the request is known. */
    method Enqueue(p: Bytes)
      requires outcome == Wait && |p| <= MAX_PAYLOAD
      modifies this
      ensures outcome == if old(buf) != [] && |old(buf)| + |p| > MAX_PAYLOAD then Fail else Decide(old(buf) + p)
      ensures outcome != Fail ==> buf == old(buf) + p
    {
      if buf != [] && |buf| + |p| > MAX_PAYLOAD {
        outcome := Fail;
        return;
      }
      buf := buf + p;
      if |buf| < 4 { return; }
      var len := UnhexScan(buf[..4]);
      if len < 1 || len > MAX_REQUEST {
        outcome := Fail;
      } else if len + 4 <= |buf| {
        outcome := Dispatch(buf[4..4 + len]);
      }
    }
  }

  /** The outcome of a sequence of packets: the first one that is not Wait stands. */
  function Feed(chunks: seq<Bytes>): (o: Outcome)
    decreases |chunks|
  {
    if chunks == [] then Wait
    else
      var front, p := chunks[..|chunks| - 1], chunks[|chunks| - 1];
      if Feed(front) != Wait then Feed(front)
      else if Concat(front) != [] && |Concat(front)| + |p| > MAX_PAYLOAD then Fail
      else Decide(Concat(front) + p)
  }

  /** A connection that delivers the chunks one by one. */
  method Deliver(chunks: seq<Bytes>) returns (o: Outcome)
    requires forall c :: c in chunks ==> |c| <= MAX_PAYLOAD
    ensures o == Feed(chunks)
  {
    var s := new Smart();
    for i := 0 to |chunks|
      invariant fresh(s) && s.outcome == Feed(chunks[..i])
      invariant s.outcome == Wait ==> s.buf == Concat(chunks[..i])
    {
      assert chunks[..i + 1][..i] == chunks[..i] && chunks[..i + 1] == chunks[..i] + [chunks[i]];
      ConcatSnoc(chunks[..i], chunks[i]);
      if s.outcome == Wait {
        s.Enqueue(chunks[i]);
      }
    }
    assert chunks[..|chunks|] == chunks;
    o := s.outcome;
  }

  /** Part of an encoded request is not acted on. */
  lemma PrefixWaits(s: Bytes, k: nat)
    requires 1 <= |s| <= MAX_REQUEST && k <= |Encode(s)|
    ensures Decide(Encode(s)[..k]) == if k == |Encode(s)| then Dispatch(s) else Wait
  {
    UnhexHex(|s|);
    var bs := Encode(s)[..k];
    if k >= 4 {
      assert bs[..4] == Hex(|s|, 4);
      if k == |Encode(s)| {
        assert bs[4..4 + |s|] == s;
      }
    }
  }

  /** Decoding does not depend on how the bytes are cut up: whatever the pieces, nothing
      happens before the last byte, and then exactly the string that was sent is acted on. */
  lemma {:induction false} ChunkingIsIrrelevant(s: Bytes, chunks: seq<Bytes>)
    requires 1 <= |s| <= MAX_REQUEST && Concat(chunks) <= Encode(s)
    ensures Feed(chunks) == if Concat(chunks) == Encode(s) then Dispatch(s) else Wait
    decreases |chunks|
  {
    PrefixWaits(s, |Concat(chunks)|);
    assert Encode(s)[..|Concat(chunks)|] == Concat(chunks);
    if chunks != [] {
      var front, p := chunks[..|chunks| - 1], chunks[|chunks| - 1];
      assert chunks == front + [p];
      ConcatSnoc(front, p);
      assert Concat(front) <= Concat(chunks);
      ChunkingIsIrrelevant(s, front);
    }
  }

  /** Four characters that are not all digits are no length: the request is refused. */
  lemma NotALengthFails(buf: Bytes, k: nat)
    requires k < 4 <= |buf| && !(48 <= buf[k] <= 57 || 65 <= buf[k] <= 70 || 97 <= buf[k] <= 102)
    ensures Decide(buf) == Fail
  {
    assert !IsHex(buf[..4][k]);
  }

  /** Bytes behind the request are ignored, unless they come in a packet that does not fit in
      one payload together with what was there before. */
  lemma TrailingBytesIff(s: Bytes, chunks: seq<Bytes>, p: Bytes)
    requires 1 <= |s| <= MAX_REQUEST && Concat(chunks) < Encode(s) <= Concat(chunks) + p
    ensures var fits := Concat(chunks) == [] || |Concat(chunks)| + |p| <= 4096;
            Feed(chunks + [p]) == if fits then Dispatch(s) else Fail
  {
    hide Encode;
    ChunkingIsIrrelevant(s, chunks);
    assert (chunks + [p])[..|chunks|] == chunks;
    DecideAll(s, Concat(chunks) + p);
  }

  lemma DecideAll(s: Bytes, buf: Bytes)
    requires 1 <= |s| <= MAX_REQUEST && Encode(s) <= buf
    ensures Decide(buf) == Dispatch(s)
  {
    UnhexHex(|s|);
    assert buf[..4] == Encode(s)[..4] == Hex(|s|, 4);
    assert buf[4..4 + |s|] == Encode(s)[4..] == s;
  }

  /** Any other string is refused as soon as its length is known. */
  lemma BadLengthFails(s: Bytes, k: nat)
    requires (|s| == 0 || |s| > MAX_REQUEST) && 4 <= k <= |Encode(s)|
    ensures Decide(Encode(s)[..k]) == Fail
  {
    var n := if |s| > 0xffff then 0xffff else |s|;
    UnhexHex(n);
    assert Encode(s)[..k][..4] == Hex(n, 4);
  }

  // --- skip_host_serial ---

  predicate IsDigit(c: char)
  {
    '0' <= c <= '9'
  }

  /** strchr from position i, or the length. */
  function IndexOf(s: string, c: char, i: nat): (k: nat)
    requires i <= |s|
    ensures i <= k <= |s| && (k < |s| ==> s[k] == c) && forall j :: i <= j < k ==> s[j] != c
    decreases |s| - i
  {
    if i == |s| || s[i] == c then i else IndexOf(s, c, i + 1)
  }

  function DigitsEnd(s: string, i: nat): (k: nat)
    requires i <= |s|
    ensures i <= k <= |s| && (k < |s| ==> !IsDigit(s[k])) && forall j :: i <= j < k ==> IsDigit(s[j])
    decreases |s| - i
  {
    if i == |s| || !IsDigit(s[i]) then i else DigitsEnd(s, i + 1)
  }

  /** The words that, with a colon, start a serial of another form. */
  const WORDS := ["usb", "product", "model", "device"]

  /** The length of the word and colon that s starts with, or 0. */
  function PrefixLength(s: string): (n: nat)
    ensures n <= |s|
  {
    if "usb:" <= s then 4 else if "product:" <= s then 8 else if "model:" <= s then 6 else if "device:" <= s then 7 else 0
  }

  /** skip_host_serial: the position of the colon that ends the serial, or -1. */
  function SerialEnd(s: string): (k: int)
    ensures -1 <= k < |s| && (k >= 0 ==> s[k] == ':')
  {
    if PrefixLength(s) > 0 then
      var k := IndexOf(s, ':', PrefixLength(s));
      if k < |s| then k else -1
    else
      var first := IndexOf(s, ':', 0);
      if first == |s| then -1
      else
        var e := DigitsEnd(s, first + 1);
        if e > first + 1 && e < |s| && s[e] == ':' then e else first
  }

  /** There is no serial exactly if no colon follows, behind the word that s may start with. */
  lemma NoSerialIff(s: string)
    ensures SerialEnd(s) == -1 <==> ':' !in s[PrefixLength(s)..]
  {
    var n := PrefixLength(s);
    assert forall j :: n <= j < |s| ==> s[n..][j - n] == s[j];
    if ':' in s[n..] {
      var j :| 0 <= j < |s[n..]| && s[n..][j] == ':';
      assert s[n + j] == ':';
    }
  }

  predicate NoColon(s: string)
  {
    ':' !in s
  }

  /** The command looks like the port of a host:port serial. */
  predicate StartsLikePort(s: string)
  {
    var e := DigitsEnd(s, 0);
    0 < e < |s| && s[e] == ':'
  }

  /** A colon-free serial, followed by a colon, starts with a word only if it is that word. */
  lemma PrefixOfPlain(serial: string, rest: string)
    requires NoColon(serial)
    ensures serial !in WORDS ==> PrefixLength(serial + ":" + rest) == 0
    ensures serial in WORDS ==> PrefixLength(serial + ":" + rest) == |serial| + 1
  {
    var s := serial + ":" + rest;
    if "usb:" <= s { WordIsSerial("usb", serial, rest); }
    if "product:" <= s { WordIsSerial("product", serial, rest); }
    if "model:" <= s { WordIsSerial("model", serial, rest); }
    if "device:" <= s { WordIsSerial("device", serial, rest); }
  }

  lemma WordIsSerial(w: string, serial: string, rest: string)
    requires NoColon(w) && NoColon(serial) && w + ":" <= serial + ":" + rest
    ensures serial == w
  {
    var s := serial + ":" + rest;
    assert s[|serial|] == ':' && s[|w|] == (w + ":")[|w|] == ':';
    assert forall j :: 0 <= j < |w| ==> s[j] == (w + ":")[j] == w[j];
    assert forall j :: 0 <= j < |serial| ==> s[j] == serial[j];
    assert |serial| == |w|;
    assert s[..|w|] == w && s[..|w|] == serial;
  }

  lemma {:induction false} DigitsEndShift(a: string, b: string, i: nat)
    requires i <= |b|
    ensures DigitsEnd(a + b, |a| + i) == |a| + DigitsEnd(b, i)
    decreases |b| - i
  {
    if i < |b| {
      assert (a + b)[|a| + i] == b[i];
      if IsDigit(b[i]) { DigitsEndShift(a, b, i + 1); }
    }
  }

  /** A plain serial is found again exactly when it is not one of the words and the command
      does not look like a port. */
  lemma PlainSerial(serial: string, command: string)
    requires NoColon(serial)
    ensures SerialEnd(serial + ":" + command) == |serial| <==> serial !in WORDS && !StartsLikePort(command)
  {
    hide PrefixLength, DigitsEnd;
    var s := serial + ":" + command;
    PrefixOfPlain(serial, command);
    if serial !in WORDS {
      assert s[|serial|] == ':' && forall j :: 0 <= j < |serial| ==> s[j] == serial[j];
      assert IndexOf(s, ':', 0) == |serial|;
      DigitsEndShift(serial + ":", command, 0);
      var e := DigitsEnd(command, 0);
      assert e < |command| ==> s[|serial| + 1 + e] == command[e];
    }
  }

  /** A host:port serial is always found again. */
  lemma HostPortSerial(host: string, port: string, command: string)
    requires NoColon(host) && port != "" && forall c :: c in port ==> IsDigit(c)
    ensures SerialEnd(host + ":" + port + ":" + command) == |host| + 1 + |port|
  {
    hide PrefixLength;
    var rest := port + ":" + command;
    var s := host + ":" + rest;
    assert s == host + ":" + port + ":" + command;
    PrefixOfPlain(host, rest);
    var end := |host| + 1 + |port|;
    assert s[end] == ':' && s[|host|] == ':';
    assert forall j :: 0 <= j < |host| ==> s[j] == host[j];
    assert forall j :: 0 <= j < |port| ==> s[|host| + 1 + j] == port[j] && port[j] in port;
    if host in WORDS {
      assert IndexOf(s, ':', |host| + 1) == end;
    } else {
      assert IndexOf(s, ':', 0) == |host|;
      assert DigitsEnd(s, |host| + 1) == end;
    }
  }

  /** So is a serial of the form word:name. */
  lemma QualifiedSerial(w: string, name: string, command: string)
    requires w in WORDS && NoColon(name)
    ensures SerialEnd(w + ":" + name + ":" + command) == |w| + 1 + |name|
  {
    var rest := name + ":" + command;
    var s := w + ":" + rest;
    assert s == w + ":" + name + ":" + command;
    PrefixOfPlain(w, rest);
    assert s[|w| + 1 + |name|] == ':';
    assert forall j :: 0 <= j < |name| ==> s[|w| + 1 + j] == name[j];
    assert IndexOf(s, ':', |w| + 1) == |w| + 1 + |name|;
  }
}
