/** A file descriptor read in pieces: adb_read may return fewer bytes than were asked for. */
module FdIo {
  import opened Bytes

  /** How many of `have` bytes one adb_read returns when asked for `max`. */
  function ReadSize(have: nat, max: nat, pick: nat): (n: nat)
    requires max > 0
    ensures n <= max && n <= have && (n == 0 <==> have == 0)
  {
    var want := if pick == 0 then max else if pick > max then max else pick;
    if want > have then have else want
  }

  /** The bytes still to come; at the end of them the other side has disconnected. */
  class Fd {
    var input: Bytes

    constructor (bs: Bytes)
      ensures input == bs
    {
      input := bs;
    }

    /** adb_read: up to `max` bytes, at least one unless the input is at its end; `pick` is
        the size the system happens to choose, 0 for as many as it can. */
    method Read(max: nat, pick: nat) returns (bs: Bytes)
      requires max > 0
      modifies this
      ensures |bs| == ReadSize(|old(input)|, max, pick) && old(input) == bs + input
    {
      var n := ReadSize(|input|, max, pick);
      bs := input[..n];
      input := input[n..];
    }
  }

  /** ReadFdExactly: exactly `len` bytes, however they arrive, or failure when the input
      ends first, with all of it consumed. */
  method ReadExactly(fd: Fd, len: nat, picks: seq<nat>) returns (ok: bool, bs: Bytes)
    modifies fd
    ensures ok == (len <= |old(fd.input)|)
    ensures ok ==> bs == old(fd.input)[..len] && fd.input == old(fd.input)[len..]
    ensures !ok ==> bs == old(fd.input) && fd.input == []
  {
    bs := [];
    var left, turn := len, 0;
    while left > 0
      invariant 0 <= left && |bs| + left == len
      invariant old(fd.input) == bs + fd.input
      decreases left
    {
      var more := fd.Read(left, if turn < |picks| then picks[turn] else 0);
      if more == [] {
        return false, bs;
      }
      bs, left, turn := bs + more, left - |more|, turn + 1;
    }
    ok := true;
  }
}
