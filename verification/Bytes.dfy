/** Bytes and the few facts about byte strings that every other module uses. */
module Bytes {

  type byte = b: int | 0 <= b < 0x100

  type Bytes = seq<byte>

  /** The concatenation of a list of byte strings. */
  function Concat(parts: seq<Bytes>): (all: Bytes)
  {
    if parts == [] then [] else parts[0] + Concat(parts[1..])
  }

  lemma {:induction false} ConcatAppend(parts: seq<Bytes>, more: seq<Bytes>)
    ensures Concat(parts + more) == Concat(parts) + Concat(more)
  {
    if parts == [] {
      assert parts + more == more;
    } else {
      assert (parts + more)[1..] == parts[1..] + more;
      ConcatAppend(parts[1..], more);
    }
  }

  lemma ConcatSnoc(parts: seq<Bytes>, last: Bytes)
    ensures Concat(parts + [last]) == Concat(parts) + last
  {
    ConcatAppend(parts, [last]);
    assert Concat([last]) == last + Concat([]);
  }

  /** Splicing two splits of a byte string. */
  lemma Regroup(a: Bytes, b: Bytes, last: Bytes, left: Bytes, c: Bytes, h: Bytes, f: Bytes)
    requires b + last == left + c && a + left == h + f
    ensures (a + b) + last == h + (f + c)
  {
    assert (a + b) + last == a + (b + last);
    assert a + (left + c) == (a + left) + c;
    assert (h + f) + c == h + (f + c);
  }

  /** What is left of a list of byte strings after its first n bytes are gone;
      a string that is used up leaves the list. */
  function DropFront(parts: seq<Bytes>, n: nat): (rest: seq<Bytes>)
  {
    if parts == [] then []
    else if n >= |parts[0]| then DropFront(parts[1..], n - |parts[0]|)
    else [parts[0][n..]] + parts[1..]
  }

  lemma {:induction false} DropFrontConcat(parts: seq<Bytes>, n: nat)
    requires n <= |Concat(parts)|
    ensures Concat(DropFront(parts, n)) == Concat(parts)[n..]
  {
    if parts != [] {
      if n >= |parts[0]| {
        DropFrontConcat(parts[1..], n - |parts[0]|);
      } else {
        assert ([parts[0][n..]] + parts[1..])[1..] == parts[1..];
      }
    }
  }

  /** A slice of a slice. */
  lemma SubSlice(bs: Bytes, p: nat, q: nat, i: nat, j: nat)
    requires p <= q <= |bs| && i <= j <= q - p
    ensures bs[p..q][i..j] == bs[p + i..p + j]
  {
    var a, b := bs[p..q][i..j], bs[p + i..p + j];
    assert forall k :: 0 <= k < j - i ==> a[k] == bs[p + i + k] && b[k] == bs[p + i + k];
  }

  // --- little-endian words ---

  const WORD := 0x1_0000_0000

  type word = w: int | 0 <= w < WORD

  /** The low n bytes of w, least significant first. */
  function Le(w: nat, n: nat): (bs: Bytes)
    ensures |bs| == n
  {
    if n == 0 then [] else [w % 0x100] + Le(w / 0x100, n - 1)
  }

  function UnLe(bs: Bytes): (w: nat)
  {
    if bs == [] then 0 else bs[0] + 0x100 * UnLe(bs[1..])
  }

  function Pow256(n: nat): (p: nat)
    ensures p > 0
  {
    if n == 0 then 1 else 0x100 * Pow256(n - 1)
  }

  lemma {:induction false} UnLeLe(w: nat, n: nat)
    requires w < Pow256(n)
    ensures UnLe(Le(w, n)) == w
  {
    if n > 0 {
      UnLeLe(w / 0x100, n - 1);
    }
  }

  lemma {:induction false} UnLeBound(bs: Bytes)
    ensures UnLe(bs) < Pow256(|bs|)
  {
    if bs != [] {
      UnLeBound(bs[1..]);
    }
  }

  /** A 32-bit word as it is sent. */
  function Word(w: word): (bs: Bytes)
    ensures |bs| == 4
  {
    Le(w, 4)
  }

  function UnWord(bs: Bytes): (w: word)
    requires |bs| == 4
  {
    UnLeBound(bs);
    assert Pow256(4) == WORD by { assert Pow256(1) == 0x100 && Pow256(2) == 0x1_0000 && Pow256(3) == 0x100_0000; }
    UnLe(bs)
  }

  lemma {:induction false} LeUnLe(bs: Bytes)
    ensures Le(UnLe(bs), |bs|) == bs
  {
    if bs != [] {
      LeUnLe(bs[1..]);
    }
  }

  lemma WordUnWord(bs: Bytes)
    requires |bs| == 4
    ensures Word(UnWord(bs)) == bs
  {
    LeUnLe(bs);
  }

  /** The least significant byte comes first. */
  lemma WordBytes(bs: Bytes)
    requires |bs| == 4
    ensures var a: int, b: int, c: int, d: int := bs[0], bs[1], bs[2], bs[3];
            UnWord(bs) == a + 0x100 * b + 0x1_0000 * c + 0x100_0000 * d
  {
    assert bs[1..][1..] == bs[2..] && bs[2..][1..] == bs[3..] && bs[3..][1..] == [];
    var c: int, d: int := bs[2], bs[3];
    assert UnLe(bs[3..]) == d;
    assert UnLe(bs[2..]) == c + 0x100 * d;
    assert UnLe(bs[1..]) == bs[1] + 0x100 * UnLe(bs[2..]);
  }

  lemma UnWordWord(w: word)
    ensures UnWord(Word(w)) == w
  {
    assert Pow256(4) == WORD by { assert Pow256(1) == 0x100 && Pow256(2) == 0x1_0000 && Pow256(3) == 0x100_0000; }
    UnLeLe(w, 4);
  }
}
