/** The file sync protocol: the client's push and pull against the server's request loop, as
    bytes on a connection that may deliver them in any pieces. */
module Sync {
  import opened Bytes
  import opened FdIo

  const SYNC_DATA_MAX := 0x1_0000
  const MAX_NAME := 1024

  // the ids, as the four letters that are sent
  const STAT: Bytes := [83, 84, 65, 84]
  const LIST: Bytes := [76, 73, 83, 84]
  const SEND: Bytes := [83, 69, 78, 68]
  const RECV: Bytes := [82, 69, 67, 86]
  const QUIT: Bytes := [81, 85, 73, 84]
  const DATA: Bytes := [68, 65, 84, 65]
  const DONE: Bytes := [68, 79, 78, 69]
  const OKAY: Bytes := [79, 75, 65, 89]
  const FAIL: Bytes := [70, 65, 73, 76]

  const COMMA: byte := 44

  datatype File = File(data: Bytes, mode: nat, mtime: word)

  type Fs = map<Bytes, File>

  // --- messages ---

  /** An id and a 32-bit number. */
  function Msg(id: Bytes, n: word): (bs: Bytes)
    requires |id| == 4
    ensures |bs| == 8
  {
    id + Word(n)
  }

  /** Reading one back. */
  lemma MsgSplit(id: Bytes, n: word, rest: Bytes)
    requires |id| == 4
    ensures var bs := Msg(id, n) + rest;
            |bs| >= 8 && bs[..4] == id && UnWord(bs[4..8]) == n && bs[8..] == rest
  {
    var bs := Msg(id, n) + rest;
    assert bs[4..8] == Word(n);
    UnWordWord(n);
  }

  function Request(id: Bytes, name: Bytes): (bs: Bytes)
    requires |id| == 4 && |name| < WORD
  {
    Msg(id, |name|) + name
  }

  /** The DATA messages for a file that was read in these pieces. */
  function Frames(chunks: seq<Bytes>): (bs: Bytes)
    requires forall c :: c in chunks ==> |c| <= SYNC_DATA_MAX
  {
    if chunks == [] then [] else Msg(DATA, |chunks[0]|) + chunks[0] + Frames(chunks[1..])
  }

  lemma {:induction false} FramesSnoc(chunks: seq<Bytes>, c: Bytes)
    requires |c| <= SYNC_DATA_MAX && forall x :: x in chunks ==> |x| <= SYNC_DATA_MAX
    ensures Frames(chunks + [c]) == Frames(chunks) + (Msg(DATA, |c|) + c)
  {
    if chunks == [] {
      assert chunks + [c] == [c];
      assert Frames([c]) == Msg(DATA, |c|) + c + Frames([]);
    } else {
      assert (chunks + [c])[1..] == chunks[1..] + [c];
      FramesSnoc(chunks[1..], c);
      var head := Msg(DATA, |chunks[0]|) + chunks[0];
      assert head + (Frames(chunks[1..]) + (Msg(DATA, |c|) + c)) == (head + Frames(chunks[1..])) + (Msg(DATA, |c|) + c);
    }
  }

  lemma MsgJoin(bs: Bytes)
    requires |bs| >= 8
    ensures bs == Msg(bs[..4], UnWord(bs[4..8])) + bs[8..]
  {
    WordUnWord(bs[4..8]);
  }

  /** The bytes are DATA messages with these pieces, and then the tail. */
  ghost predicate Framed(bs: Bytes, chunks: seq<Bytes>, tail: Bytes)
  {
    (forall c :: c in chunks ==> |c| <= SYNC_DATA_MAX) && bs == Frames(chunks) + tail
  }

  /** A message that is read as such but is neither DONE nor a DATA message of a legal size. */
  predicate Malformed(tail: Bytes)
  {
    |tail| >= 8 && tail[..4] != DONE && (tail[..4] != DATA || UnWord(tail[4..8]) > 65536)
  }

  /** No further message can be taken: the bytes are cut short, or the message is malformed. */
  predicate Stuck(tail: Bytes)
  {
    |tail| < 8 || Malformed(tail) || (tail[..4] == DATA && |tail| - 8 < UnWord(tail[4..8]))
  }

  /** Any bytes are DATA messages up to DONE or up to where they are stuck. */
  lemma {:induction false} SplitFrames(bs: Bytes) returns (chunks: seq<Bytes>, tail: Bytes)
    ensures Framed(bs, chunks, tail) && (Stuck(tail) || tail[..4] == DONE)
    decreases |bs|
  {
    hide Msg;
    chunks, tail := [], bs;
    assert Frames(chunks) + tail == bs;
    if !Stuck(bs) && bs[..4] != DONE {
      var n := UnWord(bs[4..8]);
      var c, more := bs[8..8 + n], bs[8 + n..];
      chunks, tail := SplitFrames(more);
      MsgJoin(bs);
      assert bs[8..] == c + more;
      FrameFirst(bs, c, more, chunks, tail);
      chunks := [c] + chunks;
    }
  }

  /** One more DATA message in front. */
  lemma FrameFirst(bs: Bytes, c: Bytes, more: Bytes, chunks: seq<Bytes>, tail: Bytes)
    requires |c| <= SYNC_DATA_MAX && bs == Msg(DATA, |c|) + (c + more) && Framed(more, chunks, tail)
    ensures Framed(bs, [c] + chunks, tail)
  {
    hide Msg;
    assert ([c] + chunks)[1..] == chunks;
    assert bs == Msg(DATA, |c|) + c + Frames(chunks) + tail;
  }

  // --- decimal numbers, as printed by the client and read by strtoul with base 0 ---

  function Dec(n: nat): (bs: Bytes)
    ensures bs != []
    ensures forall i :: 0 <= i < |bs| ==> 48 <= bs[i] <= 57
    ensures bs[0] == 48 <==> n == 0
  {
    if n < 10 then [48 + n] else Dec(n / 10) + [48 + n % 10]
  }

  predicate Digits(bs: Bytes, base: nat)
  {
    forall i :: 0 <= i < |bs| ==> 48 <= bs[i] < 48 + base
  }

  function Value(bs: Bytes, base: nat): (n: nat)
    requires base <= 10 && Digits(bs, base)
  {
    if bs == [] then 0 else base * Value(bs[..|bs| - 1], base) + (bs[|bs| - 1] - 48)
  }

  /** strtoul on a string of digits: a leading 0 means octal. */
  function StrToUl(bs: Bytes): (n: nat)
    requires Digits(bs, 10)
  {
    if bs != [] && bs[0] == 48 then (if Digits(bs, 8) then Value(bs, 8) else 0) else Value(bs, 10)
  }

  lemma {:induction false} ValueDec(n: nat)
    ensures Digits(Dec(n), 10) && Value(Dec(n), 10) == n
  {
    if n < 10 {
      assert Dec(n)[..0] == [];
    } else {
      ValueDec(n / 10);
      assert Dec(n)[..|Dec(n)| - 1] == Dec(n / 10);
    }
  }

  lemma StrToUlDec(n: nat)
    ensures Digits(Dec(n), 10) && StrToUl(Dec(n)) == n
  {
    ValueDec(n);
    if n == 0 {
      assert Dec(0) == [48] && [48][..0] == [];
      assert Value([48], 8) == 8 * Value([], 8) + 0;
    }
  }

  /** A number in octal. */
  function Oct(n: nat): (bs: Bytes)
    ensures bs != [] && Digits(bs, 8)
  {
    if n < 8 then [48 + n] else Oct(n / 8) + [48 + n % 8]
  }

  lemma {:induction false} ValueOct(n: nat)
    ensures Value([48] + Oct(n), 8) == n
  {
    if n < 8 {
      assert [48, 48 + n][..1] == [48] && [48][..0] == [];
    } else {
      ValueOct(n / 8);
      assert ([48] + Oct(n))[..|Oct(n)|] == [48] + Oct(n / 8);
    }
  }

  /** strtoul with base 0 takes a number with a 0 in front as octal. */
  lemma StrToUlOct(n: nat)
    ensures Digits([48] + Oct(n), 10) && StrToUl([48] + Oct(n)) == n
  {
    ValueOct(n);
  }

  /** strrchr(path, ','), or -1. */
  function LastComma(bs: Bytes): (k: int)
    ensures -1 <= k < |bs| && (k >= 0 ==> bs[k] == COMMA) && forall j :: k < j < |bs| ==> bs[j] != COMMA
  {
    if bs == [] then -1 else if bs[|bs| - 1] == COMMA then |bs| - 1 else LastComma(bs[..|bs| - 1])
  }

  // --- reading a file in pieces ---

  /** The pieces in which successive adb_read calls return a file; picks are the sizes. */
  function Pieces(data: Bytes, picks: seq<nat>): (chunks: seq<Bytes>)
    ensures forall c :: c in chunks ==> 0 < |c| <= SYNC_DATA_MAX
    decreases |data|
  {
    if data == [] then []
    else
      var n := ReadSize(|data|, SYNC_DATA_MAX, if picks == [] then 0 else picks[0]);
      [data[..n]] + Pieces(data[n..], if picks == [] then [] else picks[1..])
  }

  lemma {:induction false} PiecesConcat(data: Bytes, picks: seq<nat>)
    ensures Concat(Pieces(data, picks)) == data
    decreases |data|
  {
    if data != [] {
      var n := ReadSize(|data|, SYNC_DATA_MAX, if picks == [] then 0 else picks[0]);
      var more := if picks == [] then [] else picks[1..];
      PiecesConcat(data[n..], more);
      assert ([data[..n]] + Pieces(data[n..], more))[1..] == Pieces(data[n..], more);
      assert data == data[..n] + data[n..];
    }
  }

  // --- the server: handle_send_file ---

  /** handle_send_file returned 0 with `rest` still to be read, or it returned -1.  `whole`
      says that the file was opened and every write worked, `told` that the client was told
      about a bad message. */
  datatype Sent = Ended(whole: bool, data: Bytes, mtime: word, rest: Bytes) | Broken(whole: bool, told: bool)

  /** The DATA loop.  `open` says whether the file is open, and works[i] whether the i-th
      write to it succeeds. */
  function Receive(bs: Bytes, open: bool, works: seq<bool>, data: Bytes): (r: Sent)
    ensures r.Ended? ==> |r.rest| + 8 <= |bs|
    decreases |bs|
  {
    if |bs| < 8 then Broken(open, false)
    else
      var id, n := bs[..4], UnWord(bs[4..8]);
      if id == DONE then Ended(open, data, n, bs[8..])
      else if id != DATA || n > SYNC_DATA_MAX then Broken(open, true)
      else if |bs| - 8 < n then Broken(open, false)
      else
        var chunk, rest := bs[8..8 + n], bs[8 + n..];
        var ok := open && (works == [] || works[0]);
        Receive(rest, ok, if works == [] then [] else works[1..], if ok then data + chunk else data)
  }

  /** Request framing: whether the upload ends, where the next request starts and the time
      stamp do not depend on whether the file could be opened or written. */
  lemma {:induction false} FramingIgnoresErrors(bs: Bytes, open: bool, works: seq<bool>, data: Bytes,
                                                open': bool, works': seq<bool>, data': Bytes)
    ensures var r, r' := Receive(bs, open, works, data), Receive(bs, open', works', data');
            if r.Ended? then r'.Ended? && r.rest == r'.rest && r.mtime == r'.mtime
            else r'.Broken? && r.told == r'.told
    decreases |bs|
  {
    if |bs| >= 8 {
      var id, n := bs[..4], UnWord(bs[4..8]);
      if id == DATA && n <= SYNC_DATA_MAX && n <= |bs| - 8 {
        var ok, ok' := open && (works == [] || works[0]), open' && (works' == [] || works'[0]);
        FramingIgnoresErrors(bs[8 + n..], ok, if works == [] then [] else works[1..],
                             if ok then data + bs[8..8 + n] else data,
                             ok', if works' == [] then [] else works'[1..],
                             if ok' then data' + bs[8..8 + n] else data');
      }
    }
  }

  /** An upload that ends whole had no error. */
  lemma {:induction false} WholeIsAll(bs: Bytes, open: bool, works: seq<bool>, data: Bytes)
    ensures var r := Receive(bs, open, works, data); r.whole ==> open && r == Receive(bs, true, [], data)
    decreases |bs|
  {
    if |bs| >= 8 {
      var id, n := bs[..4], UnWord(bs[4..8]);
      if id == DATA && n <= SYNC_DATA_MAX && n <= |bs| - 8 {
        var ok := open && (works == [] || works[0]);
        WholeIsAll(bs[8 + n..], ok, if works == [] then [] else works[1..], if ok then data + bs[8..8 + n] else data);
      }
    }
  }

  /** The first n writes to the file succeed. */
  predicate AllWork(works: seq<bool>, n: nat)
  {
    forall i :: 0 <= i < n && i < |works| ==> works[i]
  }

  lemma ReceiveData(c: Bytes, more: Bytes, open: bool, works: seq<bool>, data: Bytes)
    requires |c| <= SYNC_DATA_MAX
    ensures var ok := open && (works == [] || works[0]);
            Receive(Msg(DATA, |c|) + (c + more), open, works, data)
              == Receive(more, ok, if works == [] then [] else works[1..], if ok then data + c else data)
  {
    hide Msg;
    var bs := Msg(DATA, |c|) + (c + more);
    MsgSplit(DATA, |c|, c + more);
    assert bs[8..8 + |c|] == bs[8..][..|c|] == c && bs[8 + |c|..] == bs[8..][|c|..] == more;
  }

  lemma ReceiveEnd(tail: Bytes, open: bool, works: seq<bool>, data: Bytes)
    ensures Stuck(tail) ==> Receive(tail, open, works, data) == Broken(open, Malformed(tail))
    ensures !Stuck(tail) && tail[..4] == DONE ==>
              Receive(tail, open, works, data) == Ended(open, data, UnWord(tail[4..8]), tail[8..])
  {
  }

  /** DATA messages and what ends them: the file is whole exactly if it is open and each piece
      can be written, and then it has all of them. */
  lemma {:induction false} ReceiveAcross(chunks: seq<Bytes>, tail: Bytes, open: bool, works: seq<bool>, data: Bytes)
    requires (forall c :: c in chunks ==> |c| <= SYNC_DATA_MAX) && (Stuck(tail) || (|tail| >= 8 && tail[..4] == DONE))
    ensures var r, whole := Receive(Frames(chunks) + tail, open, works, data), open && AllWork(works, |chunks|);
            if Stuck(tail) then r == Broken(whole, Malformed(tail))
            else && r.Ended? && r.mtime == UnWord(tail[4..8]) && r.rest == tail[8..] && r.whole == whole
                 && (whole ==> r.data == data + Concat(chunks))
    decreases |chunks|
  {
    hide Msg, AllWork, Receive, Stuck, Malformed;
    AllWorkStep(works, |chunks|);
    if chunks == [] {
      assert Frames(chunks) + tail == tail && data + [] == data;
      ReceiveEnd(tail, open, works, data);
    } else {
      var c, more := chunks[0], Frames(chunks[1..]) + tail;
      var ok := open && (works == [] || works[0]);
      assert Frames(chunks) + tail == Msg(DATA, |c|) + (c + more);
      ReceiveData(c, more, open, works, data);
      ReceiveAcross(chunks[1..], tail, ok, if works == [] then [] else works[1..], if ok then data + c else data);
      assert (data + c) + Concat(chunks[1..]) == data + (c + Concat(chunks[1..]));
    }
  }

  /** What the client frames the server puts together again, exactly if the file is open and
      each piece can be written; and it always ends behind DONE. */
  lemma ReceiveFrames(chunks: seq<Bytes>, mtime: word, next: Bytes, open: bool, works: seq<bool>, data: Bytes)
    requires forall c :: c in chunks ==> |c| <= SYNC_DATA_MAX
    ensures var r := Receive(Frames(chunks) + (Msg(DONE, mtime) + next), open, works, data);
            && r.Ended? && r.mtime == mtime && r.rest == next
            && r.whole == (open && AllWork(works, |chunks|))
            && (r.whole ==> r.data == data + Concat(chunks))
  {
    hide Msg, Receive, AllWork;
    MsgSplit(DONE, mtime, next);
    ReceiveAcross(chunks, Msg(DONE, mtime) + next, open, works, data);
  }

  lemma AllWorkStep(works: seq<bool>, n: nat)
    ensures AllWork(works, 0) && AllWork([], n) && (n > 0 ==> AllWork([], n - 1))
    ensures n > 0 && works != [] ==> (AllWork(works, n) <==> works[0] && AllWork(works[1..], n - 1))
  {
    if n > 0 && works != [] {
      assert forall i :: 0 < i < |works| ==> works[i] == works[1..][i - 1];
      assert forall i :: 0 <= i < |works| - 1 ==> works[1..][i] == works[i + 1];
    }
  }

  // --- the server's request loop ---

  /** Whether the server could empty or create the file before it opens it to write. */
  datatype Emptied = Untouched | Emptied(mode: nat, mtime: word)

  /** What a request may meet on the server: whether the file opens and the complaints sent
      while opening it, which writes work, the sizes of its reads, what do_list sends, and the
      text of an error. */
  datatype Env = Env(emptied: Emptied, opens: bool, complaints: seq<Bytes>, works: seq<bool>, picks: seq<nat>,
                     listing: Bytes, reason: Bytes)

  const Fine := Env(Emptied(0, 0), true, [], [], [], [], [])

  /** The request is answered and the next one starts at `rest`, or the connection ends. */
  datatype Served = Next(fs: Fs, reply: Bytes, rest: Bytes) | Stop(fs: Fs, reply: Bytes)

  /** fail_message. */
  function FailMsg(reason: Bytes): (bs: Bytes)
  {
    Msg(FAIL, |reason| % WORD) + reason
  }

  function FailMsgs(reasons: seq<Bytes>): (bs: Bytes)
  {
    if reasons == [] then [] else FailMsg(reasons[0]) + FailMsgs(reasons[1..])
  }

  /** Each complaint is a message of its own, in order. */
  lemma {:induction false} FailMsgsSnoc(reasons: seq<Bytes>, reason: Bytes)
    ensures FailMsgs([]) == []
    ensures FailMsgs(reasons + [reason]) == FailMsgs(reasons) + (Msg(FAIL, |reason| % WORD) + reason)
    decreases |reasons|
  {
    hide Msg;
    if reasons == [] {
      assert [reason][1..] == [] && reasons + [reason] == [reason];
    } else {
      FailMsgsSnoc(reasons[1..], reason);
      assert (reasons + [reason])[1..] == reasons[1..] + [reason];
    }
  }

  /** do_stat; sizes are sent modulo 32 bits, and a missing file is all zeros. */
  function StatReply(fs: Fs, path: Bytes): (bs: Bytes)
    ensures |bs| == 16
  {
    var f := if path in fs then fs[path] else File([], 0, 0);
    STAT + Word(f.mode % WORD) + Word(|f.data| % WORD) + Word(f.mtime)
  }

  predicate IsLink(mode: nat)
  {
    mode / 0x1000 % 0x10 == 0xA
  }

  /** The path and the mode of a SEND request, split at the last comma. */
  function Target(name: Bytes): (t: (Bytes, nat))
  {
    var k := LastComma(name);
    if k < 0 then (name, 0x1A4)
    else (name[..k], if Digits(name[k + 1..], 10) then StrToUl(name[k + 1..]) else 0)
  }

  /** A request with a mode empties the file first; one without does not. */
  function Prepare(fs: Fs, name: Bytes, env: Env): (fs': Fs)
  {
    if LastComma(name) >= 0 && env.emptied.Emptied? then
      fs[Target(name).0 := File([], env.emptied.mode, env.emptied.mtime)]
    else fs
  }

  /** The file after writing from its start: it is not cut off behind the data. */
  function Overlay(fs: Fs, path: Bytes, data: Bytes): (bs: Bytes)
  {
    if path in fs && |data| < |fs[path].data| then data + fs[path].data[|data|..] else data
  }

  /** The replies to an upload: complaints about opening the file, one about a write. */
  function Complaints(env: Env, whole: bool): (bs: Bytes)
  {
    FailMsgs(env.complaints) + (if env.opens && !whole then FailMsg(env.reason) else [])
  }

  /** do_send; an upload that breaks off or cannot be written leaves no file. */
  function DoSend(before: Fs, name: Bytes, bs: Bytes, env: Env): (r: Served)
    ensures r.Next? ==> |r.rest| < |bs|
  {
    var (path, mode) := Target(name);
    var fs := Prepare(before, name, env);
    if IsLink(mode) then Stop(fs, [])
    else
      match Receive(bs, env.opens, env.works, [])
      case Broken(whole, told) =>
        Stop(fs - {path}, Complaints(env, whole) + (if told then FailMsg(env.reason) else []))
      case Ended(whole, data, mtime, rest) =>
        if whole then Next(fs[path := File(Overlay(fs, path, data), mode, mtime)], Complaints(env, whole) + Msg(OKAY, 0), rest)
        else Next(if env.opens then fs - {path} else fs, Complaints(env, whole), rest)
  }

  /** do_recv. */
  function DoRecv(fs: Fs, path: Bytes, env: Env): (reply: Bytes)
  {
    if path !in fs then FailMsg(env.reason) else Frames(Pieces(fs[path].data, env.picks)) + Msg(DONE, 0)
  }

  /** One round of file_sync_service. */
  function Serve(bs: Bytes, fs: Fs, env: Env): (r: Served)
    ensures r.Next? ==> |r.rest| < |bs|
  {
    if |bs| < 8 || UnWord(bs[4..8]) > MAX_NAME || |bs| - 8 < UnWord(bs[4..8]) then
      Stop(fs, FailMsg(env.reason))
    else
      var id, n := bs[..4], UnWord(bs[4..8]);
      var name, rest := bs[8..8 + n], bs[8 + n..];
      if id == STAT then Next(fs, StatReply(fs, name), rest)
      else if id == LIST then Next(fs, env.listing, rest)
      else if id == SEND then DoSend(fs, name, rest, env)
      else if id == RECV then Next(fs, DoRecv(fs, name, env), rest)
      else if id == QUIT then Stop(fs, [])
      else Stop(fs, FailMsg(env.reason))
  }

  /** The whole connection. */
  function ServeAll(bs: Bytes, fs: Fs, envs: seq<Env>): (r: (Fs, Bytes))
    decreases |bs|
  {
    match Serve(bs, fs, if envs == [] then Fine else envs[0])
    case Stop(fs', reply) => (fs', reply)
    case Next(fs', reply, rest) =>
      var (fs2, replies) := ServeAll(rest, fs', if envs == [] then [] else envs[1..]);
      (fs2, reply + replies)
  }

  /** A request as the server sees it. */
  lemma ServeRequest(id: Bytes, name: Bytes, rest: Bytes)
    requires |id| == 4 && |name| < WORD
    ensures var bs := Request(id, name) + rest;
            && |bs| >= 8 + |name| && bs[..4] == id && UnWord(bs[4..8]) == |name|
            && bs[8..8 + |name|] == name && bs[8 + |name|..] == rest
  {
    hide Msg;
    var bs := Request(id, name) + rest;
    assert bs == Msg(id, |name|) + (name + rest);
    MsgSplit(id, |name|, name + rest);
    assert bs[8..8 + |name|] == bs[8..][..|name|] && bs[8 + |name|..] == bs[8..][|name|..];
  }

  // --- push ---

  /** sync_send for a regular file that is read in these pieces. */
  function Push(path: Bytes, mode: nat, mtime: word, chunks: seq<Bytes>): (bs: Bytes)
    requires |path| + 1 + |Dec(mode)| < WORD && forall c :: c in chunks ==> |c| <= SYNC_DATA_MAX
  {
    Request(SEND, path + [COMMA] + Dec(mode)) + (Frames(chunks) + Msg(DONE, mtime))
  }

  /** The path and the mode come back, whatever commas the path has. */
  lemma TargetRoundTrip(path: Bytes, mode: nat)
    ensures var name := path + [COMMA] + Dec(mode);
            Target(name) == (path, mode) && LastComma(name) == |path|
  {
    var name := path + [COMMA] + Dec(mode);
    assert name[|path|] == COMMA;
    assert forall j :: |path| < j < |name| ==> name[j] == Dec(mode)[j - |path| - 1];
    assert LastComma(name) == |path|;
    assert name[..|path|] == path && name[|path| + 1..] == Dec(mode);
    StrToUlDec(mode);
  }

  /** What the server does with any push: whatever errors it meets, it reads on at the next
      request.  If the file could not be opened there is what Prepare left; if one of the
      pieces could not be written there is no file; else there is the new one, over what
      Prepare left, and OKAY. */
  lemma PushOutcome(path: Bytes, mode: nat, mtime: word, chunks: seq<Bytes>, next: Bytes, fs: Fs, env: Env)
    requires |path| + 1 + |Dec(mode)| <= MAX_NAME && mode / 0x1000 % 0x10 != 0xA
    requires forall c :: c in chunks ==> |c| <= SYNC_DATA_MAX
    ensures var fs1 := if env.emptied.Untouched? then fs else fs[path := File([], env.emptied.mode, env.emptied.mtime)];
            var whole := env.opens && AllWork(env.works, |chunks|);
            Serve(Push(path, mode, mtime, chunks) + next, fs, env)
              == Next(if whole then fs1[path := File(Overlay(fs1, path, Concat(chunks)), mode, mtime)]
                      else if env.opens then fs1 - {path}
                      else fs1,
                      FailMsgs(env.complaints) + (if whole then Msg(OKAY, 0)
                                                  else if env.opens then Msg(FAIL, |env.reason| % WORD) + env.reason
                                                  else []), next)
  {
    hide Msg, Frames, Receive, Target, Dec, Overlay, FailMsgs, AllWork;
    var name := path + [COMMA] + Dec(mode);
    var body := Frames(chunks) + (Msg(DONE, mtime) + next);
    assert Push(path, mode, mtime, chunks) + next == Request(SEND, name) + body;
    ServeRequest(SEND, name, body);
    TargetRoundTrip(path, mode);
    ReceiveFrames(chunks, mtime, next, env.opens, env.works, []);
    assert [] + Concat(chunks) == Concat(chunks);
    var said := FailMsgs(env.complaints);
    assert said + [] == said && said + FailMsg(env.reason) + [] == said + FailMsg(env.reason);
  }

  /** A request without a mode: the file gets mode 0644, and is not emptied first, so that the
      end of a longer old one stays. */
  lemma SendWithoutMode(path: Bytes, mtime: word, chunks: seq<Bytes>, next: Bytes, fs: Fs, env: Env)
    requires |path| <= MAX_NAME && COMMA !in path && forall c :: c in chunks ==> |c| <= SYNC_DATA_MAX
    requires env.opens && AllWork(env.works, |chunks|)
    ensures var data := Concat(chunks);
            var kept := if path in fs && |data| < |fs[path].data| then fs[path].data[|data|..] else [];
            Serve(Request(SEND, path) + (Frames(chunks) + (Msg(DONE, mtime) + next)), fs, env)
              == Next(fs[path := File(data + kept, 420, mtime)], FailMsgs(env.complaints) + Msg(OKAY, 0), next)
  {
    hide Msg, Frames, Receive, FailMsgs, AllWork, Concat;
    var body := Frames(chunks) + (Msg(DONE, mtime) + next);
    ServeRequest(SEND, path, body);
    ReceiveFrames(chunks, mtime, next, env.opens, env.works, []);
    assert [] + Concat(chunks) == Concat(chunks) && Concat(chunks) + [] == Concat(chunks);
    assert FailMsgs(env.complaints) + [] == FailMsgs(env.complaints);
  }

  lemma ServeSend(name: Bytes, body: Bytes, fs: Fs, env: Env)
    requires |name| <= MAX_NAME
    ensures Serve(Request(SEND, name) + body, fs, env) == DoSend(fs, name, body, env)
  {
    hide Msg, DoSend;
    ServeRequest(SEND, name, body);
  }

  /** An upload that is stuck leaves no file and ends the connection; the client is told if a
      piece could not be written, and if a message was malformed. */
  lemma BrokenUpload(name: Bytes, chunks: seq<Bytes>, tail: Bytes, fs: Fs, env: Env)
    requires |name| <= MAX_NAME && Target(name).1 / 0x1000 % 0x10 != 0xA
    requires (forall c :: c in chunks ==> |c| <= SYNC_DATA_MAX) && Stuck(tail)
    ensures var failed := env.opens && !AllWork(env.works, |chunks|);
            Serve(Request(SEND, name) + (Frames(chunks) + tail), fs, env)
              == Stop(Prepare(fs, name, env) - {Target(name).0},
                      FailMsgs(env.complaints)
                      + (if failed then Msg(FAIL, |env.reason| % WORD) + env.reason else [])
                      + (if Malformed(tail) then Msg(FAIL, |env.reason| % WORD) + env.reason else []))
  {
    hide Serve, Msg, Frames, Receive, FailMsgs, Target, Prepare, AllWork, Stuck, Malformed;
    ServeSend(name, Frames(chunks) + tail, fs, env);
    ReceiveAcross(chunks, tail, env.opens, env.works, []);
  }

  /** Without errors on the server it has exactly the bytes that were sent. */
  lemma PushStores(path: Bytes, mode: nat, mtime: word, chunks: seq<Bytes>, next: Bytes, fs: Fs)
    requires |path| + 1 + |Dec(mode)| <= MAX_NAME && mode / 0x1000 % 0x10 != 0xA
    requires forall c :: c in chunks ==> |c| <= SYNC_DATA_MAX
    ensures Serve(Push(path, mode, mtime, chunks) + next, fs, Fine)
              == Next(fs[path := File(Concat(chunks), mode, mtime)], Msg(OKAY, 0), next)
  {
    hide Serve, Push, Dec, IsLink, Target, Msg, Concat;
    var stored := File(Concat(chunks), mode, mtime);
    PushOutcome(path, mode, mtime, chunks, next, fs, Fine);
    TargetRoundTrip(path, mode);
    assert [] + Msg(OKAY, 0) == Msg(OKAY, 0);
    assert fs[path := File([], 0, 0)][path := stored] == fs[path := stored];
  }

  /** Push is the identity on content: for every file and every way of reading it in pieces,
      the server ends up with the same bytes, mode and time, and stands at the next request. */
  lemma PushIdentity(path: Bytes, mode: nat, mtime: word, data: Bytes, picks: seq<nat>, next: Bytes, fs: Fs)
    requires |path| + 1 + |Dec(mode)| <= MAX_NAME && mode / 0x1000 % 0x10 != 0xA
    ensures Serve(Push(path, mode, mtime, Pieces(data, picks)) + next, fs, Fine)
              == Next(fs[path := File(data, mode, mtime)], Msg(OKAY, 0), next)
  {
    hide Serve, Push, Dec, IsLink;
    PushStores(path, mode, mtime, Pieces(data, picks), next, fs);
    PiecesConcat(data, picks);
  }

  /** sync_send does not look at what write_data_file returned: if the client can read only k
      pieces, the server has the bytes of those, which are the whole file only if k is the
      number of all, and still answers OKAY. */
  lemma PushAfterReadError(path: Bytes, mode: nat, mtime: word, data: Bytes, picks: seq<nat>, k: nat, next: Bytes, fs: Fs)
    requires |path| + 1 + |Dec(mode)| <= MAX_NAME && mode / 0x1000 % 0x10 != 0xA && k <= |Pieces(data, picks)|
    ensures var got := Concat(Pieces(data, picks)[..k]);
            && Serve(Push(path, mode, mtime, Pieces(data, picks)[..k]) + next, fs, Fine)
                 == Next(fs[path := File(got, mode, mtime)], Msg(OKAY, 0), next)
            && got <= data && (got == data <==> k == |Pieces(data, picks)|)
  {
    hide Serve, Push, Dec, IsLink;
    var chunks := Pieces(data, picks);
    PushStores(path, mode, mtime, chunks[..k], next, fs);
    PiecesConcat(data, picks);
    assert chunks[..k] + chunks[k..] == chunks;
    ConcatAppend(chunks[..k], chunks[k..]);
    if k < |chunks| {
      assert chunks[k..][0] in chunks;
    }
  }

  /** The client checks only the path against the limit, the server the path with its mode:
      a push is taken exactly when both fit. */
  lemma PushTakenIff(path: Bytes, mode: nat, mtime: word, data: Bytes, picks: seq<nat>, fs: Fs)
    requires |path| <= MAX_NAME && |Dec(mode)| <= 11 && mode / 0x1000 % 0x10 != 0xA
    ensures var taken := Serve(Push(path, mode, mtime, Pieces(data, picks)), fs, Fine).Next?;
            taken <==> |path| + 1 + |Dec(mode)| <= MAX_NAME
  {
    hide Msg, Frames, Receive, Target, Dec, IsLink, DoSend;
    var name := path + [COMMA] + Dec(mode);
    var body := Frames(Pieces(data, picks)) + Msg(DONE, mtime);
    ServeRequest(SEND, name, body);
    if |name| <= MAX_NAME {
      PushIdentity(path, mode, mtime, data, picks, [], fs);
      assert Push(path, mode, mtime, Pieces(data, picks)) + [] == Push(path, mode, mtime, Pieces(data, picks));
    }
  }

  /** A push keeps its place and is all or nothing, provided the server could empty the old
      file or there was none: then the path holds the whole file, an empty one, or none. */
  lemma PushAllOrNothing(path: Bytes, mode: nat, mtime: word, data: Bytes, picks: seq<nat>, next: Bytes, fs: Fs, env: Env)
    requires |path| + 1 + |Dec(mode)| <= MAX_NAME && mode / 0x1000 % 0x10 != 0xA
    requires env.emptied.Emptied? || path !in fs
    ensures var r := Serve(Push(path, mode, mtime, Pieces(data, picks)) + next, fs, env);
            && r.Next? && r.rest == next && r.fs - {path} == fs - {path}
            && (path in r.fs ==> r.fs[path] == File(data, mode, mtime) || (r.fs[path].data == [] && !env.opens))
  {
    hide Serve, Push, Dec, IsLink, Target;
    PushOutcome(path, mode, mtime, Pieces(data, picks), next, fs, env);
    PiecesConcat(data, picks);
    TargetRoundTrip(path, mode);
  }

  /** If it could not, and all else goes well, the server has the client's file exactly when
      the old one was not longer: otherwise the old end stays. */
  lemma PushOverOldFile(path: Bytes, mode: nat, mtime: word, data: Bytes, picks: seq<nat>, next: Bytes, fs: Fs, env: Env)
    requires |path| + 1 + |Dec(mode)| <= MAX_NAME && mode / 0x1000 % 0x10 != 0xA
    requires path in fs && env.emptied.Untouched? && env.opens && AllWork(env.works, |Pieces(data, picks)|)
    ensures var r := Serve(Push(path, mode, mtime, Pieces(data, picks)) + next, fs, env);
            path in r.fs && (r.fs[path] == File(data, mode, mtime) <==> |fs[path].data| <= |data|)
  {
    hide Serve, Push, Dec, IsLink, Target;
    PushOutcome(path, mode, mtime, Pieces(data, picks), next, fs, env);
    PiecesConcat(data, picks);
  }

  // --- stat, one at a time or in a batch ---

  datatype Stat = Stat(mode: word, size: word, time: word)

  function StatOf(fs: Fs, path: Bytes): (st: Stat)
  {
    if path in fs then Stat(fs[path].mode % WORD, |fs[path].data| % WORD, fs[path].mtime) else Stat(0, 0, 0)
  }

  /** sync_start_readtime for each entry of a list. */
  function StatRequests(paths: seq<Bytes>): (bs: Bytes)
    requires forall p :: p in paths ==> |p| <= MAX_NAME
  {
    if paths == [] then [] else Request(STAT, paths[0]) + StatRequests(paths[1..])
  }

  function StatReplies(fs: Fs, paths: seq<Bytes>): (bs: Bytes)
  {
    if paths == [] then [] else StatReply(fs, paths[0]) + StatReplies(fs, paths[1..])
  }

  /** sync_finish_readtime, k times. */
  function ReadStats(bs: Bytes, k: nat): (sts: seq<Stat>)
    decreases k
  {
    if k == 0 || |bs| < 16 || bs[..4] != STAT then []
    else [Stat(UnWord(bs[4..8]), UnWord(bs[8..12]), UnWord(bs[12..16]))] + ReadStats(bs[16..], k - 1)
  }

  lemma ServeStat(path: Bytes, rest: Bytes, fs: Fs, env: Env)
    requires |path| <= MAX_NAME
    ensures Serve(Request(STAT, path) + rest, fs, env) == Next(fs, StatReply(fs, path), rest)
  {
    hide Msg;
    ServeRequest(STAT, path, rest);
  }

  /** The environments left after k requests. */
  function After(envs: seq<Env>, k: nat): (r: seq<Env>)
  {
    if k <= |envs| then envs[k..] else []
  }

  lemma AfterOne(envs: seq<Env>, k: nat)
    ensures After(envs, 0) == envs && After(After(envs, 1), k) == After(envs, k + 1)
  {
  }

  lemma ServeAllNext(bs: Bytes, fs: Fs, envs: seq<Env>, reply: Bytes, rest: Bytes)
    requires Serve(bs, fs, if envs == [] then Fine else envs[0]) == Next(fs, reply, rest)
    ensures var end := ServeAll(rest, fs, After(envs, 1)); ServeAll(bs, fs, envs) == (end.0, reply + end.1)
  {
    hide Serve;
  }

  /** The server answers a batch in order and is then at what follows it. */
  lemma {:induction false} ServeBatch(paths: seq<Bytes>, rest: Bytes, fs: Fs, envs: seq<Env>)
    requires forall p :: p in paths ==> |p| <= MAX_NAME
    ensures var end := ServeAll(rest, fs, After(envs, |paths|));
            ServeAll(StatRequests(paths) + rest, fs, envs) == (end.0, StatReplies(fs, paths) + end.1)
    decreases |paths|
  {
    hide Serve, StatReply, Request, ServeAll, After;
    var end := ServeAll(rest, fs, After(envs, |paths|));
    if paths == [] {
      AfterOne(envs, 0);
      assert StatRequests(paths) + rest == rest;
      assert [] + end.1 == end.1;
    } else {
      var more := StatRequests(paths[1..]) + rest;
      AfterOne(envs, |paths| - 1);
      assert StatRequests(paths) + rest == Request(STAT, paths[0]) + more;
      ServeStat(paths[0], more, fs, if envs == [] then Fine else envs[0]);
      ServeAllNext(Request(STAT, paths[0]) + more, fs, envs, StatReply(fs, paths[0]), more);
      ServeBatch(paths[1..], rest, fs, After(envs, 1));
      assert StatReply(fs, paths[0]) + (StatReplies(fs, paths[1..]) + end.1)
          == (StatReply(fs, paths[0]) + StatReplies(fs, paths[1..])) + end.1;
    }
  }

  lemma ReadStatReply(fs: Fs, path: Bytes, rest: Bytes, k: nat)
    requires k > 0
    ensures ReadStats(StatReply(fs, path) + rest, k) == [StatOf(fs, path)] + ReadStats(rest, k - 1)
  {
    var bs := StatReply(fs, path) + rest;
    var f := if path in fs then fs[path] else File([], 0, 0);
    assert bs[..4] == STAT && bs[4..8] == Word(f.mode % WORD) && bs[8..12] == Word(|f.data| % WORD);
    assert bs[12..16] == Word(f.mtime) && bs[16..] == rest;
    UnWordWord(f.mode % WORD);
    UnWordWord(|f.data| % WORD);
    UnWordWord(f.mtime);
  }

  /** The k-th reply belongs to the k-th entry, and is what a single query would bring. */
  lemma {:induction false} BatchedStat(paths: seq<Bytes>, rest: Bytes, fs: Fs)
    ensures ReadStats(StatReplies(fs, paths) + rest, |paths|) == seq(|paths|, i requires 0 <= i < |paths| => StatOf(fs, paths[i]))
    decreases |paths|
  {
    hide StatReply;
    if paths != [] {
      var more := StatReplies(fs, paths[1..]) + rest;
      assert StatReplies(fs, paths) + rest == StatReply(fs, paths[0]) + more;
      ReadStatReply(fs, paths[0], more, |paths|);
      BatchedStat(paths[1..], rest, fs);
    }
  }

  /** Pipelining changes nothing: the answers a client reads after sending a whole batch are
      the files' stats in the order of the list. */
  lemma PipelinedStats(paths: seq<Bytes>, fs: Fs, envs: seq<Env>)
    requires forall p :: p in paths ==> |p| <= MAX_NAME
    ensures var replies := ServeAll(StatRequests(paths), fs, envs).1;
            ReadStats(replies, |paths|) == seq(|paths|, i requires 0 <= i < |paths| => StatOf(fs, paths[i]))
  {
    ServeBatch(paths, [], fs, envs);
    assert StatRequests(paths) + [] == StatRequests(paths);
    BatchedStat(paths, ServeAll([], fs, After(envs, |paths|)).1, fs);
  }

  // --- pull ---

  /** Overrun: more bytes are read into the buffer than it can hold. */
  datatype Pulled = Got(data: Bytes, rest: Bytes) | Refused | Overrun

  /** The size of a DATA message goes into an int, where it may come out negative, and is then
      compared with the buffer's. */
  predicate TooLong(n: word)
  {
    SYNC_DATA_MAX < n < 0x8000_0000
  }

  /** sync_recv, from the first reply on. */
  function Pull(bs: Bytes, data: Bytes): (r: Pulled)
    decreases |bs|
  {
    if |bs| < 8 then Refused
    else
      var id, n := bs[..4], UnWord(bs[4..8]);
      if id == DONE then Got(data, bs[8..])
      else if id != DATA || TooLong(n) then Refused
      else if n > SYNC_DATA_MAX then (if |bs| - 8 > SYNC_DATA_MAX then Overrun else Refused)
      else if |bs| - 8 < n then Refused
      else Pull(bs[8 + n..], data + bs[8..8 + n])
  }

  lemma PullData(c: Bytes, more: Bytes, data: Bytes)
    requires |c| <= SYNC_DATA_MAX
    ensures Pull(Msg(DATA, |c|) + (c + more), data) == Pull(more, data + c)
  {
    hide Msg;
    var bs := Msg(DATA, |c|) + (c + more);
    MsgSplit(DATA, |c|, c + more);
    assert bs[8..8 + |c|] == bs[8..][..|c|] == c && bs[8 + |c|..] == bs[8..][|c|..] == more;
  }

  lemma {:induction false} PullAcross(chunks: seq<Bytes>, tail: Bytes, data: Bytes)
    requires forall c :: c in chunks ==> |c| <= SYNC_DATA_MAX
    ensures Pull(Frames(chunks) + tail, data) == Pull(tail, data + Concat(chunks))
    decreases |chunks|
  {
    hide Msg, Pull;
    if chunks == [] {
      assert Frames(chunks) + tail == tail && data + [] == data;
    } else {
      var c, more := chunks[0], Frames(chunks[1..]) + tail;
      assert Frames(chunks) + tail == Msg(DATA, |c|) + (c + more);
      PullData(c, more, data);
      PullAcross(chunks[1..], tail, data + c);
      assert (data + c) + Concat(chunks[1..]) == data + (c + Concat(chunks[1..]));
    }
  }

  lemma PullFrames(chunks: seq<Bytes>, n: word, rest: Bytes, data: Bytes)
    requires forall c :: c in chunks ==> |c| <= SYNC_DATA_MAX
    ensures Pull(Frames(chunks) + (Msg(DONE, n) + rest), data) == Got(data + Concat(chunks), rest)
  {
    hide Msg;
    PullAcross(chunks, Msg(DONE, n) + rest, data);
    MsgSplit(DONE, n, rest);
  }

  ghost predicate Uploaded(bs: Bytes, chunks: seq<Bytes>, n: word, rest: Bytes)
  {
    Framed(bs, chunks, Msg(DONE, n) + rest)
  }

  /** A pull succeeds exactly on DATA messages and DONE, with exactly their bytes. */
  lemma GotIff(bs: Bytes, data: Bytes, rest: Bytes)
    ensures Pull(bs, []) == Got(data, rest) <==>
              exists chunks, n :: Uploaded(bs, chunks, n, rest) && data == Concat(chunks)
  {
    hide Msg, Concat;
    if Pull(bs, []) == Got(data, rest) {
      var chunks, tail := SplitFrames(bs);
      PullAcross(chunks, tail, []);
      MsgJoin(tail);
      assert [] + Concat(chunks) == Concat(chunks);
      assert Uploaded(bs, chunks, UnWord(tail[4..8]), rest);
    }
    if chunks, n: word :| Uploaded(bs, chunks, n, rest) && data == Concat(chunks) {
      PullFrames(chunks, n, rest, []);
      assert [] + Concat(chunks) == Concat(chunks);
    }
  }

  /** The messages that overrun the buffer: after any DATA messages that fit, one whose size
      has its top bit set and that has more bytes behind it than the buffer holds. */
  ghost predicate Overlong(bs: Bytes, chunks: seq<Bytes>, n: word, tail: Bytes)
  {
    n >= 0x8000_0000 && |tail| > SYNC_DATA_MAX && Framed(bs, chunks, Msg(DATA, n) + tail)
  }

  /** A pull overruns its buffer exactly on these messages. */
  lemma OverrunIff(bs: Bytes, data: Bytes)
    ensures Pull(bs, data) == Overrun <==> exists chunks, n, tail :: Overlong(bs, chunks, n, tail)
  {
    hide Msg, Concat;
    if Pull(bs, data) == Overrun {
      var chunks, tail := SplitFrames(bs);
      PullAcross(chunks, tail, data);
      MsgJoin(tail);
      assert Overlong(bs, chunks, UnWord(tail[4..8]), tail[8..]);
    }
    if chunks, n: word, tail :| Overlong(bs, chunks, n, tail) {
      PullAcross(chunks, Msg(DATA, n) + tail, data);
      MsgSplit(DATA, n, tail);
    }
  }

  /** The shortest of them: one message. */
  lemma OneMessageOverruns(n: word, tail: Bytes)
    requires n >= 0x8000_0000 && |tail| > SYNC_DATA_MAX
    ensures Pull(Msg(DATA, n) + tail, []) == Overrun
  {
    hide Msg;
    MsgSplit(DATA, n, tail);
  }

  /** Pull is the identity on content, for every way the server reads its file. */
  lemma PullIdentity(path: Bytes, next: Bytes, fs: Fs, env: Env)
    requires path in fs && |path| <= MAX_NAME
    ensures var r := Serve(Request(RECV, path) + next, fs, env);
            r.Next? && r.rest == next && r.fs == fs && Pull(r.reply, []) == Got(fs[path].data, [])
  {
    hide Msg, Pull;
    ServeRequest(RECV, path, next);
    var chunks := Pieces(fs[path].data, env.picks);
    PiecesConcat(fs[path].data, env.picks);
    PullFrames(chunks, 0, [], []);
    assert Frames(chunks) + (Msg(DONE, 0) + []) == Frames(chunks) + Msg(DONE, 0);
    assert [] + Concat(chunks) == fs[path].data;
  }

  /** Pulling a file that is not there is refused: the server answers FAIL and goes on. */
  lemma PullMissing(path: Bytes, next: Bytes, fs: Fs, env: Env)
    requires path !in fs && |path| <= MAX_NAME
    ensures var r := Serve(Request(RECV, path) + next, fs, env);
            && r == Next(fs, Msg(FAIL, |env.reason| % WORD) + env.reason, next)
            && Pull(r.reply, []) == Refused
  {
    hide Msg;
    ServeRequest(RECV, path, next);
    MsgSplit(FAIL, |env.reason| % WORD, env.reason);
  }

  /** A request that is cut short, too long or unknown ends the connection with FAIL, and
      changes no file; QUIT ends it silently. */
  lemma BadRequestStops(bs: Bytes, fs: Fs, env: Env)
    ensures var cut := |bs| < 8 || UnWord(bs[4..8]) > 1024 || 8 + UnWord(bs[4..8]) > |bs|;
            && (cut || bs[..4] !in [STAT, LIST, SEND, RECV, QUIT] ==>
                  Serve(bs, fs, env) == Stop(fs, Msg(FAIL, |env.reason| % WORD) + env.reason))
            && (!cut && bs[..4] == QUIT ==> Serve(bs, fs, env) == Stop(fs, []))
  {
    hide DoSend;
  }

  /** And what was pushed is what is pulled. */
  lemma PushThenPull(path: Bytes, mode: nat, mtime: word, data: Bytes, picks: seq<nat>, fs: Fs, env: Env)
    requires |path| + 1 + |Dec(mode)| <= MAX_NAME && mode / 0x1000 % 0x10 != 0xA
    ensures var r := Serve(Push(path, mode, mtime, Pieces(data, picks)), fs, Fine);
            r.Next? && var q := Serve(Request(RECV, path), r.fs, env); q.Next? && Pull(q.reply, []) == Got(data, [])
  {
    hide Serve, Push, Request, Pull;
    PushIdentity(path, mode, mtime, data, picks, [], fs);
    assert Push(path, mode, mtime, Pieces(data, picks)) + [] == Push(path, mode, mtime, Pieces(data, picks));
    PullIdentity(path, [], fs[path := File(data, mode, mtime)], env);
    assert Request(RECV, path) + [] == Request(RECV, path);
  }

  // --- the loops ---

  /** write_data_file: the local file goes out in one DATA message per read, up to the first
      read that fails; `good` is the number of reads that do not, 0 if the file does not open. */
  method WriteDataFile(file: Fd, picks: seq<nat>, good: nat) returns (wire: Bytes)
    modifies file
    ensures var all := Pieces(old(file.input), picks);
            wire == Frames(if good < |all| then all[..good] else all)
  {
    hide Frames, Msg;
    wire := [];
    var left, todo := picks, good;
    ghost var done: seq<Bytes> := [];
    assert Frames([]) == [] by { FramesNone(); }
    while todo > 0
      invariant done + Pieces(file.input, left) == Pieces(old(file.input), picks)
      invariant forall c :: c in done ==> |c| <= SYNC_DATA_MAX
      invariant wire == Frames(done) && |done| + todo == good
    {
      ghost var before := file.input;
      var buf := file.Read(SYNC_DATA_MAX, if left == [] then 0 else left[0]);
      if buf == [] { break; }
      left := if left == [] then [] else left[1..];
      assert before[..|buf|] == buf && before[|buf|..] == file.input;
      FramesSnoc(done, buf);
      wire := wire + (Msg(DATA, |buf|) + buf);
      assert done + ([buf] + Pieces(file.input, left)) == (done + [buf]) + Pieces(file.input, left);
      done, todo := done + [buf], todo - 1;
    }
    assert done == Pieces(old(file.input), picks)[..|done|];
    assert done + [] == done;
  }

  lemma FramesNone()
    ensures Frames([]) == []
  {
  }

  /** handle_send_file. */
  method HandleSendFile(conn: Fd, opens: bool, works: seq<bool>) returns (r: Sent)
    modifies conn
    ensures r == Receive(old(conn.input), opens, works, [])
    ensures r.Ended? ==> conn.input == r.rest
  {
    var open, todo, data := opens, works, [];
    while true
      invariant Receive(conn.input, open, todo, data) == Receive(old(conn.input), opens, works, [])
      decreases |conn.input|
    {
      ghost var before := conn.input;
      var ok, head := ReadExactly(conn, 8, []);
      if !ok { return Broken(open, false); }
      assert head[..4] == before[..4] && head[4..8] == before[4..8];
      var id, n := head[..4], UnWord(head[4..8]);
      if id == DONE { return Ended(open, data, n, conn.input); }
      if id != DATA || n > SYNC_DATA_MAX { return Broken(open, true); }
      var buf;
      ok, buf := ReadExactly(conn, n, []);
      if !ok { return Broken(open, false); }
      assert buf == before[8..8 + n] && conn.input == before[8 + n..];
      open := open && (todo == [] || todo[0]);
      todo := if todo == [] then [] else todo[1..];
      if open { data := data + buf; }
    }
  }

  /** file_sync_service. */
  method FileSyncService(conn: Fd, start: Fs, envs: seq<Env>) returns (fs: Fs, replies: Bytes)
    modifies conn
    ensures (fs, replies) == ServeAll(old(conn.input), start, envs)
  {
    hide Serve;
    fs, replies := start, [];
    var todo := envs;
    assert [] + ServeAll(conn.input, start, envs).1 == ServeAll(conn.input, start, envs).1;
    while true
      invariant ServeAll(old(conn.input), start, envs)
                  == (ServeAll(conn.input, fs, todo).0, replies + ServeAll(conn.input, fs, todo).1)
      decreases |conn.input|
    {
      var env := if todo == [] then Fine else todo[0];
      ghost var before := conn.input;
      var r := ServeOne(conn, fs, env);
      match r {
        case Stop(fs', reply) =>
          fs, replies := fs', replies + reply;
          break;
        case Next(fs', reply, rest) =>
          todo := if todo == [] then [] else todo[1..];
          assert replies + (reply + ServeAll(rest, fs', todo).1) == (replies + reply) + ServeAll(rest, fs', todo).1;
          fs, replies := fs', replies + reply;
      }
    }
  }

  /** One request of the loop. */
  method ServeOne(conn: Fd, fs: Fs, env: Env) returns (r: Served)
    modifies conn
    ensures r == Serve(old(conn.input), fs, env)
    ensures r.Next? ==> conn.input == r.rest
  {
    hide Receive, Target, Prepare, Overlay, IsLink, Msg, Frames, FailMsg, Complaints, StatReply;
    ghost var before := conn.input;
    var ok, head := ReadExactly(conn, 8, env.picks);
    if !ok { return Stop(fs, FailMsg(env.reason)); }
    assert head[..4] == before[..4] && head[4..8] == before[4..8];
    var id, n := head[..4], UnWord(head[4..8]);
    if n > MAX_NAME { return Stop(fs, FailMsg(env.reason)); }
    var name;
    ok, name := ReadExactly(conn, n, env.picks);
    if !ok { return Stop(fs, FailMsg(env.reason)); }
    assert name == before[8..8 + n] && conn.input == before[8 + n..];
    if id == STAT {
      r := Next(fs, StatReply(fs, name), conn.input);
    } else if id == LIST {
      r := Next(fs, env.listing, conn.input);
    } else if id == SEND {
      var (path, mode) := Target(name);
      var fs := Prepare(fs, name, env);
      if IsLink(mode) { return Stop(fs, []); }
      var sent := HandleSendFile(conn, env.opens, env.works);
      match sent {
        case Broken(whole, told) =>
          r := Stop(fs - {path}, Complaints(env, whole) + (if told then FailMsg(env.reason) else []));
        case Ended(whole, data, mtime, rest) =>
          r := if whole then Next(fs[path := File(Overlay(fs, path, data), mode, mtime)],
                                  Complaints(env, whole) + Msg(OKAY, 0), rest)
               else Next(if env.opens then fs - {path} else fs, Complaints(env, whole), rest);
      }
    } else if id == RECV {
      r := Next(fs, DoRecv(fs, name, env), conn.input);
    } else if id == QUIT {
      r := Stop(fs, []);
    } else {
      r := Stop(fs, FailMsg(env.reason));
    }
  }

  /** sync_recv: the file is written as the DATA messages arrive. */
  method SyncRecv(conn: Fd) returns (r: Pulled)
    modifies conn
    ensures r == Pull(old(conn.input), [])
    ensures r.Got? ==> conn.input == r.rest
  {
    var data := [];
    while true
      invariant Pull(conn.input, data) == Pull(old(conn.input), [])
      decreases |conn.input|
    {
      ghost var before := conn.input;
      var ok, head := ReadExactly(conn, 8, []);
      if !ok { return Refused; }
      assert head[..4] == before[..4] && head[4..8] == before[4..8];
      var id, n := head[..4], UnWord(head[4..8]);
      if id == DONE { return Got(data, conn.input); }
      if id != DATA || TooLong(n) { return Refused; }
      var buf;
      if n > SYNC_DATA_MAX {
        ok, buf := ReadExactly(conn, SYNC_DATA_MAX + 1, []);
        return if ok then Overrun else Refused;
      }
      ok, buf := ReadExactly(conn, n, []);
      if !ok { return Refused; }
      assert buf == before[8..8 + n] && conn.input == before[8 + n..];
      data := data + buf;
    }
  }
}
