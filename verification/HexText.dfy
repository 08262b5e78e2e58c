/** Hexadecimal text, as printf writes it and as the readers take it back. */
module HexText {
  import opened Bytes

  /** One digit of %x. */
  function Digit(d: nat): (c: byte)
    requires d < 16
  {
    if d < 10 then 48 + d else 97 + d - 10
  }

  /** %0nx of a number below 16 to the n. */
  function Hex(v: nat, n: nat): (bs: Bytes)
    ensures |bs| == n
  {
    if n == 0 then [] else Hex(v / 16, n - 1) + [Digit(v % 16)]
  }

  predicate IsHex(c: byte)
  {
    48 <= c <= 57 || 97 <= c <= 102 || 65 <= c <= 70
  }

  function Nibble(c: byte): (d: nat)
    requires IsHex(c)
    ensures d < 16
  {
    if c <= 57 then c - 48 else if c >= 97 then c - 97 + 10 else c - 65 + 10
  }

  function HexValue(bs: Bytes): (n: nat)
    requires forall i :: 0 <= i < |bs| ==> IsHex(bs[i])
  {
    if bs == [] then 0 else 16 * HexValue(bs[..|bs| - 1]) + Nibble(bs[|bs| - 1])
  }

  function Pow16(n: nat): (p: nat)
    ensures p > 0
  {
    if n == 0 then 1 else 16 * Pow16(n - 1)
  }

  lemma {:induction false} HexRoundTrip(v: nat, n: nat)
    requires v < Pow16(n)
    ensures forall i :: 0 <= i < n ==> IsHex(Hex(v, n)[i])
    ensures HexValue(Hex(v, n)) == v
  {
    if n > 0 {
      HexRoundTrip(v / 16, n - 1);
      assert Hex(v, n)[..n - 1] == Hex(v / 16, n - 1);
    }
  }

  /** The characters that are digits, in either case, and their values. */
  lemma DigitCases(c: byte)
    ensures IsHex(c) <==> exists d :: 0 <= d < 16 && (c == Digit(d) || (d >= 10 && c == Digit(d) - 32))
    ensures forall d :: 0 <= d < 16 && c == Digit(d) ==> Nibble(c) == d
    ensures forall d :: 10 <= d < 16 && c == Digit(d) - 32 ==> Nibble(c) == d
    ensures Digit(9) == 57 && Digit(10) == 97
  {
    if IsHex(c) {
      var d := Nibble(c);
      assert c == Digit(d) || (d >= 10 && c == Digit(d) - 32);
    }
  }
}
