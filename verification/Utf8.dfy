/**
  UTF-8 of one Unicode scalar value, one `char` per byte, with its decoder.
 */
module Utf8 {
  import opened Vectors

  /** A code point that is not a surrogate. */
  predicate Scalar(cp: nat) {
    cp <= 0x10ffff && !(0xd800 <= cp <= 0xdfff)
  }

  function Octet(x: nat): char
    requires x < 256
  {
    x as char
  }

  function Tail(x: nat): char {
    Octet(0x80 + x % 64)
  }

  function Encoding(cp: nat): string
    requires Scalar(cp)
  {
    if cp <= 0x7f then [Octet(cp)]
    else if cp <= 0x7ff then [Octet(0xc0 + cp / 64), Tail(cp)]
    else if cp <= 0xffff then [Octet(0xe0 + cp / 4096), Tail(cp / 64), Tail(cp)]
    else [Octet(0xf0 + cp / 262144), Tail(cp / 4096), Tail(cp / 64), Tail(cp)]
  }

  predicate IsTail(c: char) {
    0x80 <= c as int < 0xc0
  }

  function TailBits(c: char): nat
    requires IsTail(c)
  {
    c as int - 0x80
  }

  /** The code point a byte string encodes, if it is the shortest encoding of a scalar value. */
  function Decoding(s: string): Option<nat> {
    if |s| == 1 && s[0] as int <= 0x7f then Some(s[0] as int)
    else if |s| == 2 && 0xc0 <= s[0] as int < 0xe0 && IsTail(s[1]) then
      Checked((s[0] as int - 0xc0) * 64 + TailBits(s[1]), 0x80)
    else if |s| == 3 && 0xe0 <= s[0] as int < 0xf0 && IsTail(s[1]) && IsTail(s[2]) then
      Checked(((s[0] as int - 0xe0) * 64 + TailBits(s[1])) * 64 + TailBits(s[2]), 0x800)
    else if |s| == 4 && 0xf0 <= s[0] as int < 0xf8 && IsTail(s[1]) && IsTail(s[2]) && IsTail(s[3]) then
      Checked((((s[0] as int - 0xf0) * 64 + TailBits(s[1])) * 64 + TailBits(s[2])) * 64 + TailBits(s[3]), 0x10000)
    else None
  }

  function Checked(cp: nat, least: nat): Option<nat> {
    if cp >= least && Scalar(cp) then Some(cp) else None
  }

  lemma Quarters(x: nat)
    ensures x == x / 64 * 64 + x % 64 && x / 64 / 64 == x / 4096 && x / 4096 / 64 == x / 262144
  {
  }

  lemma TailDecodes(x: nat)
    ensures IsTail(Tail(x)) && TailBits(Tail(x)) == x % 64
  {
  }

  /** Decoding undoes encoding. */
  lemma EncodingDecodes(cp: nat)
    requires Scalar(cp)
    ensures Decoding(Encoding(cp)) == Some(cp)
  {
    TailDecodes(cp);
    TailDecodes(cp / 64);
    TailDecodes(cp / 4096);
    Quarters(cp);
    hide Tail;
    hide TailBits;
    hide IsTail;
    var a, b, c := cp / 262144, cp / 4096, cp / 64;
    assert b == a * 64 + b % 64 && c == b * 64 + c % 64 && cp == c * 64 + cp % 64;
  }

  lemma Joined(q: nat, r: nat)
    requires r < 64
    ensures (q * 64 + r) / 64 == q && (q * 64 + r) % 64 == r
  {
  }

  lemma TailOf(c: char, x: nat)
    requires IsTail(c) && x % 64 == TailBits(c)
    ensures Tail(x) == c
  {
  }

  lemma TwoOctets(s: string)
    requires |s| == 2 && Decoding(s).Some?
    ensures Encoding(Decoding(s).value) == s
  {
    var a: nat, b := s[0] as int - 0xc0, TailBits(s[1]);
    var cp := Decoding(s).value;
    assert cp == a * 64 + b;
    Joined(a, b);
    TailOf(s[1], cp);
    hide Decoding;
    assert s == [s[0], s[1]];
  }

  lemma ThreeOctets(s: string)
    requires |s| == 3 && Decoding(s).Some?
    ensures Encoding(Decoding(s).value) == s
  {
    var a: nat, b, c := s[0] as int - 0xe0, TailBits(s[1]), TailBits(s[2]);
    var cp := Decoding(s).value;
    assert cp == (a * 64 + b) * 64 + c;
    Joined(a * 64 + b, c);
    Joined(a, b);
    Quarters(cp);
    TailOf(s[2], cp);
    TailOf(s[1], cp / 64);
    hide Decoding;
    hide Tail;
    assert s == [s[0], s[1], s[2]];
  }

  lemma FourOctets(s: string)
    requires |s| == 4 && Decoding(s).Some?
    ensures Encoding(Decoding(s).value) == s
  {
    var a: nat, b, c, d := s[0] as int - 0xf0, TailBits(s[1]), TailBits(s[2]), TailBits(s[3]);
    var cp := Decoding(s).value;
    assert cp == ((a * 64 + b) * 64 + c) * 64 + d;
    Joined((a * 64 + b) * 64 + c, d);
    Joined(a * 64 + b, c);
    Joined(a, b);
    Quarters(cp);
    TailOf(s[3], cp);
    TailOf(s[2], cp / 64);
    TailOf(s[1], cp / 4096);
    hide Decoding;
    hide Tail;
    assert s == [s[0], s[1], s[2], s[3]];
  }

  /** Every accepted byte string is the encoding of what it decodes to: one encoding per scalar value. */
  lemma DecodingEncodes(s: string)
    requires Decoding(s).Some?
    ensures Scalar(Decoding(s).value) && Encoding(Decoding(s).value) == s
  {
    if |s| == 1 {
      assert s == [s[0]];
    } else {
      if |s| == 2 { TwoOctets(s); } else if |s| == 3 { ThreeOctets(s); } else { FourOctets(s); }
      hide Encoding;
    }
  }

  /** Appends a code point's UTF-8, or refuses it. */
  method AppendUtf8(cp: nat, output: Option<string>) returns (ok: bool, out: Option<string>)
    ensures ok <==> Scalar(cp)
    ensures ok ==> out == if output.None? then None else Some(output.value + Encoding(cp))
  {
    if cp > 0x10ffff || 0xd800 <= cp <= 0xdfff { return false, output; }
    if output.None? { return true, None; }
    var s := output.value;
    if cp <= 0x7f {
      s := s + [Octet(cp)];
    } else if cp <= 0x7ff {
      s := s + [Octet(0xc0 + cp / 64)];
      s := s + [Octet(0x80 + cp % 64)];
    } else if cp <= 0xffff {
      s := s + [Octet(0xe0 + cp / 4096)];
      s := s + [Octet(0x80 + cp / 64 % 64)];
      s := s + [Octet(0x80 + cp % 64)];
    } else {
      s := s + [Octet(0xf0 + cp / 262144)];
      s := s + [Octet(0x80 + cp / 4096 % 64)];
      s := s + [Octet(0x80 + cp / 64 % 64)];
      s := s + [Octet(0x80 + cp % 64)];
    }
    assert s == output.value + Encoding(cp);
    return true, Some(s);
  }
}
