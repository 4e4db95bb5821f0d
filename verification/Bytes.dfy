/** Bytes, the 16-bit transaction identifier, and big-endian numbers. */
module Bytes {

  type Byte = b: int | 0 <= b < 256

  /** Go's int and int64. */
  type Int64 = i: int | -0x8000_0000_0000_0000 <= i < 0x8000_0000_0000_0000

  /** A transaction identifier (TID): Go's uint16. */
  type Tid = t: int | 0 <= t < 0x1_0000

  function Uint16(n: nat): Tid {
    n % 0x1_0000
  }

  /** The mathematical value of a big-endian byte string. */
  function BigEndian(bytes: seq<Byte>): nat {
    if |bytes| == 0 then 0 else 256 * BigEndian(bytes[..|bytes| - 1]) + bytes[|bytes| - 1]
  }

  function Pow256(n: nat): nat {
    if n == 0 then 1 else 256 * Pow256(n - 1)
  }

  function Power2(n: nat): nat {
    if n == 0 then 1 else 2 * Power2(n - 1)
  }

  lemma Power2IsPositive(n: nat)
    ensures Power2(n) >= 1
  {
  }

  lemma Power2Of8()
    ensures Power2(8) == 256
  {
  }

  lemma {:induction false} BigEndianBound(bytes: seq<Byte>)
    ensures BigEndian(bytes) < Pow256(|bytes|)
  {
    if |bytes| == 0 {
    } else {
      BigEndianBound(bytes[..|bytes| - 1]);
    }
  }

  lemma Pow256Values()
    ensures Pow256(0) == 1 && Pow256(1) == 0x100 && Pow256(2) == 0x1_0000 && Pow256(3) == 0x100_0000
    ensures Pow256(4) == 0x1_0000_0000 && Pow256(5) == 0x100_0000_0000 && Pow256(6) == 0x1_0000_0000_0000
    ensures Pow256(7) == 0x100_0000_0000_0000 && Pow256(8) == 0x1_0000_0000_0000_0000
  {
  }

  lemma Widen(top: int, p: int, value: int, last: Byte)
    requires top * p <= value < (top + 1) * p
    ensures top * (256 * p) <= 256 * value + last as int < (top + 1) * (256 * p)
  {
  }

  /** The first byte carries the top bits of the number. */
  lemma {:induction false} BigEndianTop(bytes: seq<Byte>)
    requires |bytes| > 0
    ensures bytes[0] * Pow256(|bytes| - 1) <= BigEndian(bytes) < (bytes[0] + 1) * Pow256(|bytes| - 1)
  {
    if |bytes| == 1 {
      assert bytes[..0] == [];
    } else {
      var init := bytes[..|bytes| - 1];
      BigEndianTop(init);
      Widen(bytes[0], Pow256(|bytes| - 2), BigEndian(init), bytes[|bytes| - 1]);
    }
  }

  /** The codes of a list of anything that has one. */
  function CodesBy<T>(items: seq<T>, code: T -> Byte): (epcs: seq<Byte>)
    ensures |epcs| == |items| && forall i :: 0 <= i < |items| ==> epcs[i] == code(items[i])
  {
    seq(|items|, i requires 0 <= i < |items| => code(items[i]))
  }
}
