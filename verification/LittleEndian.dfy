/** Unsigned integers as little-endian bytes. */
module LittleEndian {
  import opened Wrappers
  import DivMod

  const TWO16: int := 0x1_0000
  const TWO32: int := 0x1_0000_0000
  const TWO64: int := 0x1_0000_0000_0000_0000

  function Power(w: nat): (p: nat)
    ensures p >= 1
  {
    if w == 0 then 1 else 256 * Power(w - 1)
  }

  lemma Powers()
    ensures Power(2) == TWO16 && Power(4) == TWO32 && Power(8) == TWO64
  {
    assert Power(1) == 256 && Power(2) == 0x1_0000 && Power(3) == 0x100_0000 && Power(4) == TWO32;
    assert Power(5) == 256 * TWO32 && Power(6) == 0x1_0000 * TWO32 && Power(7) == 0x100_0000 * TWO32;
  }

  /** The low `w` bytes of `n`, lowest first. */
  function Write(n: nat, w: nat): (r: Bytes)
    ensures |r| == w
  {
    if w == 0 then [] else [n % 256] + Write(n / 256, w - 1)
  }

  function Read(bytes: Bytes): (n: nat)
    ensures n < Power(|bytes|)
  {
    if bytes == [] then 0 else bytes[0] + 256 * Read(bytes[1..])
  }

  /** What is written reads back, as far as the width goes. */
  lemma {:induction false} ReadWritten(n: nat, w: nat)
    requires n < Power(w)
    ensures Read(Write(n, w)) == n
  {
    if w > 0 {
      assert n / 256 < Power(w - 1);
      ReadWritten(n / 256, w - 1);
      assert Write(n, w)[1..] == Write(n / 256, w - 1);
    }
  }

  /** And every byte string is what its value is written as. */
  lemma {:induction false} WriteRead(bytes: Bytes)
    ensures Write(Read(bytes), |bytes|) == bytes
  {
    if bytes != [] {
      WriteRead(bytes[1..]);
      DivMod.Quotient(Read(bytes), 256, Read(bytes[1..]), bytes[0]);
      assert [bytes[0]] + bytes[1..] == bytes;
    }
  }
}
