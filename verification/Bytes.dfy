/**
  Bytes, and numbers and strings as bytes.
 */
module Bytes {

  type Byte = x: nat | x < 256

  /** 256 to the n. */
  function Pow(n: nat): (p: nat)
    ensures p > 0
  {
    if n == 0 then 1 else 256 * Pow(n - 1)
  }

  const TWO_32: nat := 0x1_0000_0000
  const TWO_63: nat := 0x8000_0000_0000_0000
  const TWO_64: nat := 0x1_0000_0000_0000_0000
  const INT32_MAX: nat := 0x7fff_ffff

  lemma Widths()
    ensures Pow(4) == TWO_32 && Pow(8) == TWO_64
  {
    assert Pow(2) == 65536 && Pow(4) == 65536 * 65536;
    assert Pow(6) == 65536 * Pow(4) && Pow(8) == 65536 * Pow(6);
  }

  /** The low n bytes of a number, the lowest first. */
  function Little(v: nat, n: nat): (bytes: seq<Byte>)
    ensures |bytes| == n
  {
    if n == 0 then [] else [v % 256] + Little(v / 256, n - 1)
  }

  function Number(bytes: seq<Byte>): nat {
    if bytes == [] then 0 else bytes[0] + 256 * Number(bytes[1..])
  }

  lemma DivSmall(v: nat, p: nat)
    requires v < 256 * p
    ensures v / 256 < p
  {
  }

  /** A number that fits comes back from its bytes. */
  lemma {:induction false} NumberOfLittle(v: nat, n: nat)
    requires v < Pow(n)
    ensures Number(Little(v, n)) == v
    decreases n
  {
    if n > 0 {
      DivSmall(v, Pow(n - 1));
      NumberOfLittle(v / 256, n - 1);
      assert Little(v, n)[1..] == Little(v / 256, n - 1);
    }
  }

  /** Any bytes are those of the number they stand for. */
  lemma {:induction false} LittleOfNumber(bytes: seq<Byte>)
    ensures Number(bytes) < Pow(|bytes|) && Little(Number(bytes), |bytes|) == bytes
  {
    if bytes != [] {
      var rest: nat := Number(bytes[1..]);
      LittleOfNumber(bytes[1..]);
      JoinedByte(bytes[0], rest);
      assert bytes == [bytes[0]] + bytes[1..];
    }
  }

  lemma JoinedByte(b: Byte, rest: nat)
    ensures (b + 256 * rest) % 256 == b && (b + 256 * rest) / 256 == rest
  {
  }

  // ---------------------------------------------------------------------
  // Byte strings.
  // ---------------------------------------------------------------------

  /** Every character is a byte. */
  predicate ByteString(s: string) {
    forall i | 0 <= i < |s| :: s[i] as int < 256
  }

  function FromString(s: string): (bytes: seq<Byte>)
    ensures |bytes| == |s|
    ensures forall i | 0 <= i < |s| :: bytes[i] == s[i] as int % 256
  {
    seq(|s|, i requires 0 <= i < |s| => s[i] as int % 256)
  }

  function ToString(bytes: seq<Byte>): (s: string)
    ensures |s| == |bytes| && ByteString(s)
    ensures forall i | 0 <= i < |s| :: s[i] as int == bytes[i]
  {
    seq(|bytes|, i requires 0 <= i < |bytes| => bytes[i] as char)
  }

  lemma StringThere(s: string)
    requires ByteString(s)
    ensures ToString(FromString(s)) == s
  {
  }

  lemma StringBack(bytes: seq<Byte>)
    ensures FromString(ToString(bytes)) == bytes
  {
  }

  // ---------------------------------------------------------------------
  // Signed numbers.
  // ---------------------------------------------------------------------

  predicate Int64(v: int) {
    0 - TWO_63 <= v < TWO_63
  }

  /** The 64-bit pattern of a signed number. */
  function Unsigned(v: int): (u: nat)
    ensures u < TWO_64
  {
    v % TWO_64
  }

  function Signed(u: nat): int {
    if u < TWO_63 then u else u - TWO_64
  }

  lemma SignedThere(v: int)
    requires Int64(v)
    ensures Signed(Unsigned(v)) == v
  {
    if v < 0 {
      assert (v + TWO_64) % TWO_64 == v % TWO_64;
    }
  }

  lemma UnsignedThere(u: nat)
    requires u < TWO_64
    ensures Int64(Signed(u)) && Unsigned(Signed(u)) == u
  {
    if u >= TWO_63 {
      assert (u - TWO_64 + TWO_64) % TWO_64 == (u - TWO_64) % TWO_64;
    }
  }
}
