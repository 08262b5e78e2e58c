/** The archive that mkbootfs writes, in the "newc" cpio format: for each entry a header of
    hexadecimal fields, the name and the data, each starting at a multiple of four. */
module Cpio {
  import opened Bytes
  import opened HexText

  datatype Entry = Entry(name: Bytes, mode: word, data: Bytes)

  datatype Option<T> = None | Some(value: T)

  const MAGIC: Bytes := [48, 55, 48, 55, 48, 49]
  const TRAILER: Bytes := [84, 82, 65, 73, 76, 69, 82, 33, 33, 33]
  const HEADER_SIZE := 110
  const FIRST_INODE: word := 300000

  // --- the writer ---

  function Zeros(n: nat): (bs: Bytes)
    ensures |bs| == n && forall i :: 0 <= i < n ==> bs[i] == 0
  {
    seq(n, _ => 0)
  }

  /** The two alignments of the format. */
  predicate Unit(k: nat)
  {
    k == 4 || k == 256
  }

  /** The next multiple of k. */
  function Align(n: nat, k: nat): (m: nat)
    requires Unit(k)
    ensures n <= m < n + k && m % k == 0
  {
    if n % k == 0 then n else n - n % k + k
  }

  function PadTo(bs: Bytes, k: nat): (r: Bytes)
    requires Unit(k)
    ensures |r| == Align(|bs|, k) && bs <= r
  {
    bs + Zeros(Align(|bs|, k) - |bs|)
  }

  function Field(v: word): (bs: Bytes)
    ensures |bs| == 8
  {
    Hex(v, 8)
  }

  function Header(inode: word, mode: word, dataSize: word, nameSize: word): (bs: Bytes)
    ensures |bs| == HEADER_SIZE
  {
    MAGIC + Field(inode) + Field(mode) + Field(0) + Field(0) + Field(1) + Field(0) + Field(dataSize)
    + Field(0) + Field(0) + Field(0) + Field(0) + Field(nameSize) + Field(0)
  }

  /** The size goes into an unsigned. */
  function Stored(data: Bytes): (bs: Bytes)
    ensures |bs| == |data| % WORD && bs <= data && (|data| < WORD ==> bs == data)
  {
    data[..|data| % WORD]
  }

  predicate Fits(e: Entry)
  {
    |e.name| + 1 < WORD
  }

  /** The archive after _eject. */
  function Eject(out: Bytes, inode: word, e: Entry): (r: Bytes)
    requires Fits(e)
    ensures out <= r
  {
    var data := Stored(e.data);
    PadTo(PadTo(out, 4) + Header(inode, e.mode, |data|, |e.name| + 1) + e.name + [0], 4) + data
  }

  function EjectAll(es: seq<Entry>): (out: Bytes)
    requires forall e :: e in es ==> Fits(e)
    decreases |es|
  {
    if es == [] then []
    else Eject(EjectAll(es[..|es| - 1]), (FIRST_INODE + |es| - 1) % WORD, es[|es| - 1])
  }

  /** The whole archive: the entries, the trailer, and zeros to a multiple of 256. */
  function Archive(es: seq<Entry>, trailerMode: word): (out: Bytes)
    requires forall e :: e in es ==> Fits(e)
    ensures |out| % 256 == 0
  {
    PadTo(Eject(EjectAll(es), (FIRST_INODE + |es|) % WORD, Entry(TRAILER, trailerMode, [])), 256)
  }

  /** The globals of mkbootfs.  total_size is an int: it counts modulo 32 bits, which is
      enough for both alignments. */
  class Writer {
    var out: Bytes
    var totalSize: word
    var nextInode: word

    ghost predicate Valid()
      reads this
    {
      totalSize == |out| % WORD
    }

    constructor ()
      ensures Valid() && out == [] && nextInode == FIRST_INODE
    {
      out, totalSize, nextInode := [], 0, FIRST_INODE;
    }

    /** A loop of putchar(0) until total_size is a multiple of k. */
    method Pad(k: nat)
      requires Valid() && Unit(k)
      modifies this`out, this`totalSize
      ensures Valid() && out == PadTo(old(out), k)
    {
      ghost var goal := Align(|out|, k);
      CountUnit(|out|, k);
      while totalSize % k != 0
        invariant Valid() && |old(out)| <= |out| <= goal && out == old(out) + Zeros(|out| - |old(out)|)
        invariant totalSize % k == |out| % k
        decreases goal - |out|
      {
        AlignUnique(|old(out)|, k, |out|);
        CountMore(|out|, 1);
        totalSize := (totalSize + 1) % WORD;
        out := out + [0];
        CountUnit(|out|, k);
      }
      AlignUnique(|old(out)|, k, |out|);
    }

    /** Bytes go out and are counted. */
    method Emit(bs: Bytes, count: nat)
      requires Valid() && count == |bs|
      modifies this`out, this`totalSize
      ensures Valid() && out == old(out) + bs
    {
      CountMore(|out|, count);
      out := out + bs;
      totalSize := (totalSize + count) % WORD;
    }

    /** _eject. */
    method Put(e: Entry)
      requires Valid() && Fits(e)
      modifies this
      ensures Valid() && out == Eject(old(out), old(nextInode), e) && nextInode == (old(nextInode) + 1) % WORD
    {
      hide PadTo, Header;
      Pad(4);
      var data := Stored(e.data);
      ghost var padded := out;
      var head := Header(nextInode, e.mode, |data|, |e.name| + 1);
      Emit(head + e.name + [0], 6 + 8 * 13 + |e.name| + 1);
      assert padded + (head + e.name + [0]) == padded + head + e.name + [0];
      nextInode := (nextInode + 1) % WORD;
      Pad(4);
      Emit(data, |data|);
    }
  }

  lemma CountMore(n: nat, m: nat)
    ensures (n % WORD + m) % WORD == (n + m) % WORD
  {
  }

  lemma CountUnit(n: nat, k: nat)
    requires Unit(k)
    ensures n % WORD % k == n % k
  {
    assert n == WORD * (n / WORD) + n % WORD;
  }

  /** From n to the next multiple there is no other multiple. */
  lemma AlignUnique(n: nat, k: nat, m: nat)
    requires Unit(k) && n <= m <= Align(n, k)
    ensures m % k == 0 <==> m == Align(n, k)
  {
  }

  // --- a reader of the format ---

  predicate HexAt(bs: Bytes, p: nat)
  {
    p + 8 <= |bs| && forall i :: p <= i < p + 8 ==> IsHex(bs[i])
  }

  function FieldAt(bs: Bytes, p: nat): (n: nat)
    requires HexAt(bs, p)
  {
    HexValue(bs[p..p + 8])
  }

  /** What a header at p says. */
  datatype Head = Head(inode: nat, mode: nat, links: nat, dataSize: nat, nameSize: nat)

  function ReadHeader(bs: Bytes, p: nat): (h: Option<Head>)
    requires p + HEADER_SIZE <= |bs|
  {
    if || bs[p..p + 6] != MAGIC || !HexAt(bs, p + 6) || !HexAt(bs, p + 14) || !HexAt(bs, p + 38)
       || !HexAt(bs, p + 54) || !HexAt(bs, p + 94) then None
    else Some(Head(FieldAt(bs, p + 6), FieldAt(bs, p + 14), FieldAt(bs, p + 38), FieldAt(bs, p + 54), FieldAt(bs, p + 94)))
  }

  datatype Item = Item(e: Entry, next: nat) | Last | Bad

  /** The entry after position pos. */
  function ReadItem(bs: Bytes, pos: nat): (r: Item)
    ensures r.Item? ==> pos < r.next <= |bs|
  {
    var p := Align(pos, 4);
    if p + HEADER_SIZE > |bs| || ReadHeader(bs, p).None? then Bad
    else
      var h := ReadHeader(bs, p).value;
      var n := p + HEADER_SIZE;
      var d := Align(n + h.nameSize, 4);
      if h.nameSize == 0 || n + h.nameSize > |bs| || bs[n + h.nameSize - 1] != 0 then Bad
      else
        var name := bs[n..n + h.nameSize - 1];
        if name == TRAILER then Last
        else if d + h.dataSize > |bs| || h.mode >= WORD then Bad
        else Item(Entry(name, h.mode, bs[d..d + h.dataSize]), d + h.dataSize)
  }

  /** The entries from position pos to the trailer. */
  function Read(bs: Bytes, pos: nat): (r: Option<seq<Entry>>)
    decreases |bs| - pos
  {
    match ReadItem(bs, pos)
    case Bad => None
    case Last => Some([])
    case Item(e, next) =>
      match Read(bs, next)
      case None => None
      case Some(more) => Some([e] + more)
  }

  lemma FieldRoundTrip(v: word, bs: Bytes, p: nat)
    requires p + 8 <= |bs| && bs[p..p + 8] == Field(v)
    ensures HexAt(bs, p) && FieldAt(bs, p) == v
  {
    assert Pow16(8) == WORD by {
      assert Pow16(1) == 16 && Pow16(2) == 256 && Pow16(3) == 4096 && Pow16(4) == 0x1_0000;
      assert Pow16(5) == 0x10_0000 && Pow16(6) == 0x100_0000 && Pow16(7) == 0x1000_0000;
    }
    HexRoundTrip(v, 8);
    assert forall i :: p <= i < p + 8 ==> bs[i] == bs[p..p + 8][i - p];
  }

  lemma HeaderFields(inode: word, mode: word, dataSize: word, nameSize: word)
    ensures var h := Header(inode, mode, dataSize, nameSize);
            && h[..6] == MAGIC && h[6..14] == Field(inode) && h[14..22] == Field(mode) && h[38..46] == Field(1)
            && h[54..62] == Field(dataSize) && h[94..102] == Field(nameSize)
  {
    hide Field;
  }

  /** Owner, times, devices and checksum are all 0. */
  lemma HeaderZeros(inode: word, mode: word, dataSize: word, nameSize: word)
    ensures var h := Header(inode, mode, dataSize, nameSize);
            && h[22..30] == Field(0) && h[30..38] == Field(0) && h[46..54] == Field(0) && h[62..70] == Field(0)
            && h[70..78] == Field(0) && h[78..86] == Field(0) && h[86..94] == Field(0) && h[102..110] == Field(0)
  {
    hide Field;
  }

  /** A header reads back as it was written. */
  lemma HeaderRoundTrip(bs: Bytes, p: nat, inode: word, mode: word, dataSize: word, nameSize: word)
    requires p + HEADER_SIZE <= |bs| && bs[p..p + HEADER_SIZE] == Header(inode, mode, dataSize, nameSize)
    ensures ReadHeader(bs, p) == Some(Head(inode, mode, 1, dataSize, nameSize))
  {
    hide Header, Field;
    HeaderFields(inode, mode, dataSize, nameSize);
    SubSlice(bs, p, p + HEADER_SIZE, 0, 6);
    FieldFrom(bs, p, inode, 6);
    FieldFrom(bs, p, mode, 14);
    FieldFrom(bs, p, 1, 38);
    FieldFrom(bs, p, dataSize, 54);
    FieldFrom(bs, p, nameSize, 94);
  }

  /** The field at one place of the header at p. */
  lemma FieldFrom(bs: Bytes, p: nat, v: word, at: nat)
    requires p + HEADER_SIZE <= |bs| && at + 8 <= HEADER_SIZE && bs[p..p + HEADER_SIZE][at..at + 8] == Field(v)
    ensures HexAt(bs, p + at) && FieldAt(bs, p + at) == v
  {
    SubSlice(bs, p, p + HEADER_SIZE, at, at + 8);
    FieldRoundTrip(v, bs, p + at);
  }

  /** The position of an entry's data, when its header is at p. */
  function DataAt(p: nat, e: Entry): (d: nat)
    ensures p + HEADER_SIZE + |e.name| < d && d % 4 == 0
  {
    Align(p + HEADER_SIZE + |e.name| + 1, 4)
  }

  /** The entry that follows the first pos bytes: header, name and data, with the header and
      the data at multiples of four. */
  predicate PlacedAt(bs: Bytes, pos: nat, inode: word, e: Entry)
    requires Fits(e)
  {
    var data, p := Stored(e.data), Align(pos, 4);
    var n, d := p + HEADER_SIZE, DataAt(p, e);
    && p % 4 == 0 && d % 4 == 0 && d + |data| <= |bs|
    && bs[p..n] == Header(inode, e.mode, |data|, |e.name| + 1)
    && bs[n..n + |e.name|] == e.name && bs[n + |e.name|] == 0
    && bs[d..d + |data|] == data
  }

  lemma EjectLayout(out: Bytes, inode: word, e: Entry)
    requires Fits(e)
    ensures PlacedAt(Eject(out, inode, e), |out|, inode, e)
    ensures |Eject(out, inode, e)| == DataAt(Align(|out|, 4), e) + |Stored(e.data)|
  {
    hide Header, Zeros, Align;
    var data := Stored(e.data);
    var a := PadTo(out, 4);
    var b := a + Header(inode, e.mode, |data|, |e.name| + 1) + e.name + [0];
    var c := PadTo(b, 4);
    var n := |a| + HEADER_SIZE;
    assert b[|a|..n] == Header(inode, e.mode, |data|, |e.name| + 1) && b[n..n + |e.name|] == e.name && b[n + |e.name|] == 0;
    assert c[..|b|] == b && (c + data)[..|b|] == b && (c + data)[|c|..] == data;
    assert (c + data)[|a|..n] == (c + data)[..|b|][|a|..n];
    assert (c + data)[n..n + |e.name|] == (c + data)[..|b|][n..n + |e.name|];
  }

  /** An entry stays in its place when the archive grows. */
  lemma PlacedLater(bs: Bytes, out: Bytes, inode: word, e: Entry)
    requires Fits(e) && Eject(out, inode, e) <= bs
    ensures PlacedAt(bs, |out|, inode, e)
  {
    hide Eject, Header, Align, Stored, DataAt;
    EjectLayout(out, inode, e);
    var r := Eject(out, inode, e);
    var p := Align(|out|, 4);
    var n, d := p + HEADER_SIZE, DataAt(p, e);
    assert bs[0..|r|] == r;
    SubSlice(bs, 0, |r|, p, n);
    SubSlice(bs, 0, |r|, n, n + |e.name|);
    SubSlice(bs, 0, |r|, d, |r|);
  }

  /** Reading one entry of a longer archive. */
  lemma ReadEntry(bs: Bytes, out: Bytes, inode: word, e: Entry)
    requires Fits(e) && Eject(out, inode, e) <= bs && |e.data| < WORD
    ensures ReadItem(bs, |out|) == if e.name == TRAILER then Last else Item(e, |Eject(out, inode, e)|)
  {
    hide Eject, Header, ReadHeader, Align, Stored;
    EjectLayout(out, inode, e);
    PlacedLater(bs, out, inode, e);
    HeaderRoundTrip(bs, Align(|out|, 4), inode, e.mode, |e.data|, |e.name| + 1);
  }

  /** Archives only grow. */
  lemma {:induction false} EjectAllPrefix(es: seq<Entry>, k: nat)
    requires k <= |es| && forall e :: e in es ==> Fits(e)
    ensures EjectAll(es[..k]) <= EjectAll(es)
    decreases |es|
  {
    hide Eject;
    if k == |es| {
      assert es[..k] == es;
    } else {
      var front := es[..|es| - 1];
      EjectAllPrefix(front, k);
      assert front[..k] == es[..k];
    }
  }

  /** The reader finds every entry from the k-th on. */
  lemma {:induction false} ReadFrom(es: seq<Entry>, mode: word, k: nat)
    requires k <= |es| && forall e :: e in es ==> Fits(e) && |e.data| < WORD && e.name != TRAILER
    ensures Read(Archive(es, mode), |EjectAll(es[..k])|) == Some(es[k..])
    decreases |es| - k
  {
    hide Eject, ReadItem, PadTo;
    var bs := Archive(es, mode);
    if k == |es| {
      assert es[..k] == es;
      assert es[k..] == [];
      ReadEntry(bs, EjectAll(es), (FIRST_INODE + |es|) % WORD, Entry(TRAILER, mode, []));
    } else {
      var out, e := EjectAll(es[..k]), es[k];
      assert es[..k + 1][..k] == es[..k];
      EjectAllPrefix(es, k + 1);
      assert EjectAll(es[..k + 1]) <= bs;
      ReadEntry(bs, out, (FIRST_INODE + k) % WORD, e);
      ReadFrom(es, mode, k + 1);
      assert [e] + es[k + 1..] == es[k..];
    }
  }

  /** Writer and reader undo each other: exactly when no entry has the trailer's name. */
  lemma ArchiveRoundTrip(es: seq<Entry>, mode: word)
    requires forall e :: e in es ==> Fits(e) && |e.data| < WORD
    ensures Read(Archive(es, mode), 0) == Some(es) <==> forall e :: e in es ==> e.name != TRAILER
  {
    if forall e :: e in es ==> e.name != TRAILER {
      ReadFrom(es, mode, 0);
      assert es[..0] == [] && es[0..] == es;
    } else {
      var k := FirstTrailer(es);
      ReadStops(es, mode, k, k);
      assert es[..0] == [];
      ReadStops(es, mode, k, 0);
    }
  }

  lemma FirstTrailer(es: seq<Entry>) returns (k: nat)
    requires exists e :: e in es && e.name == TRAILER
    ensures k < |es| && es[k].name == TRAILER && forall i :: 0 <= i < k ==> es[i].name != TRAILER
  {
    var n := |es| - 1;
    if exists e :: e in es[..n] && e.name == TRAILER {
      k := FirstTrailer(es[..n]);
    } else {
      k := n;
      assert forall i :: 0 <= i < n ==> es[i] == es[..n][i] && es[i] in es[..n];
    }
  }

  /** A file that happens to have the trailer's name hides itself and everything after it. */
  lemma {:induction false} ReadStops(es: seq<Entry>, mode: word, k: nat, i: nat)
    requires forall e :: e in es ==> Fits(e) && |e.data| < WORD
    requires i <= k < |es| && es[k].name == TRAILER && forall j :: 0 <= j < k ==> es[j].name != TRAILER
    ensures Read(Archive(es, mode), |EjectAll(es[..i])|) == Some(es[i..k])
    decreases k - i
  {
    hide Eject, ReadItem, PadTo;
    var bs := Archive(es, mode);
    var out, e := EjectAll(es[..i]), es[i];
    assert es[..i + 1][..i] == es[..i];
    EjectAllPrefix(es, i + 1);
    assert EjectAll(es[..i + 1]) <= bs;
    ReadEntry(bs, out, (FIRST_INODE + i) % WORD, e);
    if i < k {
      ReadStops(es, mode, k, i + 1);
      assert [e] + es[i + 1..k] == es[i..k];
    } else {
      assert es[i..k] == [];
    }
  }

  /** Every header and all data start at a multiple of four, inode numbers count up from the
      first, and the length of the archive is a multiple of 256. */
  lemma Aligned(es: seq<Entry>, mode: word, k: nat)
    requires k < |es| && forall e :: e in es ==> Fits(e)
    ensures var bs, p := Archive(es, mode), Align(|EjectAll(es[..k])|, 4);
            && p % 4 == 0 && p + HEADER_SIZE <= |bs|
            && ReadHeader(bs, p)
                 == Some(Head((FIRST_INODE + k) % WORD, es[k].mode, 1, |Stored(es[k].data)|, |es[k].name| + 1))
    ensures PlacedAt(Archive(es, mode), |EjectAll(es[..k])|, (FIRST_INODE + k) % WORD, es[k])
    ensures |Archive(es, mode)| % 256 == 0
  {
    hide Eject, PadTo, Align, Stored, Header, ReadHeader;
    assert es[..k + 1][..k] == es[..k];
    EjectAllPrefix(es, k + 1);
    PlacedLater(Archive(es, mode), EjectAll(es[..k]), (FIRST_INODE + k) % WORD, es[k]);
    HeaderRoundTrip(Archive(es, mode), Align(|EjectAll(es[..k])|, 4), (FIRST_INODE + k) % WORD, es[k].mode,
                    |Stored(es[k].data)|, |es[k].name| + 1);
  }
}
