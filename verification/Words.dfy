/** Numbers as bytes, most significant byte first. */
module Words {
  import opened Base

  function BigEndian(a: nat, b: nat, c: nat, d: nat): nat
  {
    ((a * 0x100 + b) * 0x100 + c) * 0x100 + d
  }

  /** The byte of a number that has `place` less significant bytes. */
  function Digit(n: nat, place: nat): byte
  {
    if place == 0 then n % 0x100 else Digit(n / 0x100, place - 1)
  }

  /** A 32-bit number, most significant byte first. */
  function BigBytes(n: nat): (r: bytes)
    ensures |r| == 4
  {
    [Digit(n, 3), Digit(n, 2), Digit(n, 1), Digit(n, 0)]
  }

  lemma {:induction false} DigitAbove(n: nat, place: nat)
    requires place > 0
    ensures Digit(n, place) == Digit(n / 0x100, place - 1)
  {
  }

  /** The last byte of a number and the number above it. */
  lemma {:induction false} LastByte(n: nat)
    ensures n == n / 0x100 * 0x100 + Digit(n, 0)
  {
  }

  lemma {:induction false} BigEndianInverse(n: nat)
    requires n < 0x1_0000_0000
    ensures BigEndian(Digit(n, 3), Digit(n, 2), Digit(n, 1), Digit(n, 0)) == n
  {
    DigitAbove(n, 3);
    DigitAbove(n, 2);
    DigitAbove(n, 1);
    ThreeBytes(n / 0x100);
    LastByte(n);
  }

  lemma {:induction false} ThreeBytes(n: nat)
    requires n < 0x100_0000
    ensures BigEndian(0, Digit(n, 2), Digit(n, 1), Digit(n, 0)) == n
  {
    DigitAbove(n, 2);
    DigitAbove(n, 1);
    TwoBytes(n / 0x100);
    LastByte(n);
  }

  lemma {:induction false} TwoBytes(n: nat)
    requires n < 0x1_0000
    ensures BigEndian(0, 0, Digit(n, 1), Digit(n, 0)) == n
  {
    DigitAbove(n, 1);
    LastByte(n);
    LastByte(n / 0x100);
  }
}
