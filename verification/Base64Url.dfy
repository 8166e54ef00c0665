/**
  Base64url without padding: the encoder, which works in the standard alphabet
  with padding and then rewrites and trims, and the canonical decoder.
 */
module Base64Url {
  import opened Vectors
  import opened Bytes

  type Sextet = x: nat | x < 64

  // ---------------------------------------------------------------------
  // The alphabet.
  // ---------------------------------------------------------------------

  function Letter(s: Sextet): char {
    if s < 26 then ('A' as int + s) as char
    else if s < 52 then ('a' as int + (s - 26)) as char
    else if s < 62 then ('0' as int + (s - 52)) as char
    else if s == 62 then '-'
    else '_'
  }

  function SextetOf(c: char): Option<Sextet> {
    if 'A' <= c <= 'Z' then Some(c as int - 'A' as int)
    else if 'a' <= c <= 'z' then Some(c as int - 'a' as int + 26)
    else if '0' <= c <= '9' then Some(c as int - '0' as int + 52)
    else if c == '-' then Some(62)
    else if c == '_' then Some(63)
    else None
  }

  lemma LettersAreSextets(s: Sextet, c: char)
    ensures SextetOf(Letter(s)) == Some(s)
    ensures SextetOf(c).Some? ==> Letter(SextetOf(c).value) == c
  {
  }

  /** The standard alphabet, where the last two letters differ. */
  function StandardLetter(s: Sextet): char {
    if s < 62 then Letter(s) else if s == 62 then '+' else '/'
  }

  function UrlLetter(c: char): char {
    if c == '+' then '-' else if c == '/' then '_' else c
  }

  // ---------------------------------------------------------------------
  // Sextets of bytes and bytes of sextets.
  // ---------------------------------------------------------------------

  function First(a: Byte): Sextet { a / 4 }
  function Second(a: Byte, b: Byte): Sextet { a % 4 * 16 + b / 16 }
  function Third(b: Byte, c: Byte): Sextet { b % 16 * 4 + c / 64 }
  function Fourth(c: Byte): Sextet { c % 64 }

  function HighByte(p: Sextet, q: Sextet): Byte { p * 4 + q / 16 }
  function MidByte(q: Sextet, r: Sextet): Byte { q % 16 * 16 + r / 4 }
  function LowByte(r: Sextet, s: Sextet): Byte { r % 4 * 64 + s }

  /** The bits a last letter does not use. */
  predicate LowFourSet(q: Sextet) { q % 16 != 0 }
  predicate LowTwoSet(r: Sextet) { r % 4 != 0 }

  lemma SextetsMakeBytes(a: Byte, b: Byte, c: Byte)
    ensures HighByte(First(a), Second(a, b)) == a
    ensures MidByte(Second(a, b), Third(b, c)) == b
    ensures LowByte(Third(b, c), Fourth(c)) == c
    ensures !LowFourSet(Second(a, 0)) && !LowTwoSet(Third(b, 0))
  {
  }

  lemma BytesMakeSextets(p: Sextet, q: Sextet, r: Sextet, s: Sextet)
    ensures First(HighByte(p, q)) == p
    ensures Second(HighByte(p, q), MidByte(q, r)) == q
    ensures Third(MidByte(q, r), LowByte(r, s)) == r
    ensures Fourth(LowByte(r, s)) == s
    ensures !LowFourSet(q) ==> Second(HighByte(p, q), 0) == q
    ensures !LowTwoSet(r) ==> Third(MidByte(q, r), 0) == r
  {
  }

  // ---------------------------------------------------------------------
  // What encoding and decoding mean.
  // ---------------------------------------------------------------------

  /** Up to three bytes as up to four letters. */
  function EncodeQuad(bytes: seq<Byte>): (text: string)
    requires |bytes| <= 3
    ensures |text| == if bytes == [] then 0 else |bytes| + 1
  {
    if bytes == [] then ""
    else if |bytes| == 1 then [Letter(First(bytes[0])), Letter(Second(bytes[0], 0))]
    else if |bytes| == 2 then [Letter(First(bytes[0])), Letter(Second(bytes[0], bytes[1])), Letter(Third(bytes[1], 0))]
    else [Letter(First(bytes[0])), Letter(Second(bytes[0], bytes[1])), Letter(Third(bytes[1], bytes[2])), Letter(Fourth(bytes[2]))]
  }

  /** Up to four letters as up to three bytes, with no unused bits set. */
  function DecodeQuad(text: string): (bytes: Option<seq<Byte>>)
    requires |text| <= 4
    ensures bytes.Some? ==> |bytes.value| == (if text == "" then 0 else |text| - 1) && |text| != 1
  {
    if text == "" then Some([])
    else if |text| == 1 then None
    else
      var p, q := SextetOf(text[0]), SextetOf(text[1]);
      if p.None? || q.None? then None
      else if |text| == 2 then
        if LowFourSet(q.value) then None else Some([HighByte(p.value, q.value)])
      else
        var r := SextetOf(text[2]);
        if r.None? then None
        else if |text| == 3 then
          if LowTwoSet(r.value) then None else Some([HighByte(p.value, q.value), MidByte(q.value, r.value)])
        else
          var s := SextetOf(text[3]);
          if s.None? then None
          else Some([HighByte(p.value, q.value), MidByte(q.value, r.value), LowByte(r.value, s.value)])
  }

  function Encoded(bytes: seq<Byte>): string {
    if |bytes| <= 3 then EncodeQuad(bytes) else EncodeQuad(bytes[..3]) + Encoded(bytes[3..])
  }

  function Both(a: Option<seq<Byte>>, b: Option<seq<Byte>>): Option<seq<Byte>> {
    if a.Some? && b.Some? then Some(a.value + b.value) else None
  }

  function Decoded(text: string): Option<seq<Byte>> {
    if |text| <= 4 then DecodeQuad(text) else Both(DecodeQuad(text[..4]), Decoded(text[4..]))
  }

  lemma LastByteAlone(a: Byte, b: Byte)
    requires b == 0
    ensures HighByte(First(a), Second(a, b)) == a && !LowFourSet(Second(a, b))
  {
  }

  lemma OneThere(a: Byte)
    ensures DecodeQuad(EncodeQuad([a])) == Some([a])
  {
    var p, q := First(a), Second(a, 0);
    LastByteAlone(a, 0);
    LettersAreSextets(p, ' ');
    LettersAreSextets(q, ' ');
    assert EncodeQuad([a]) == [Letter(p), Letter(q)];
    hide *;
    DecodeTwo(Letter(p), Letter(q));
  }

  lemma TwoThere(a: Byte, b: Byte)
    ensures DecodeQuad(EncodeQuad([a, b])) == Some([a, b])
  {
    var p, q, r := First(a), Second(a, b), Third(b, 0);
    SextetsMakeBytes(a, b, 0);
    LettersAreSextets(p, ' ');
    LettersAreSextets(q, ' ');
    LettersAreSextets(r, ' ');
    assert EncodeQuad([a, b]) == [Letter(p), Letter(q), Letter(r)];
    hide *;
    DecodeThree(Letter(p), Letter(q), Letter(r));
  }

  lemma ThreeThere(a: Byte, b: Byte, c: Byte)
    ensures DecodeQuad(EncodeQuad([a, b, c])) == Some([a, b, c])
  {
    var p, q, r, s := First(a), Second(a, b), Third(b, c), Fourth(c);
    SextetsMakeBytes(a, b, c);
    LettersAreSextets(p, ' ');
    LettersAreSextets(q, ' ');
    LettersAreSextets(r, ' ');
    LettersAreSextets(s, ' ');
    assert EncodeQuad([a, b, c]) == [Letter(p), Letter(q), Letter(r), Letter(s)];
    hide *;
    DecodeFour(Letter(p), Letter(q), Letter(r), Letter(s));
  }

  lemma DecodeTwo(x: char, y: char)
    ensures DecodeQuad([x, y]) ==
      if SextetOf(x).None? || SextetOf(y).None? || LowFourSet(SextetOf(y).value) then None
      else Some([HighByte(SextetOf(x).value, SextetOf(y).value)])
  {
  }

  lemma DecodeThree(x: char, y: char, z: char)
    ensures DecodeQuad([x, y, z]) ==
      if SextetOf(x).None? || SextetOf(y).None? || SextetOf(z).None? || LowTwoSet(SextetOf(z).value) then None
      else Some([HighByte(SextetOf(x).value, SextetOf(y).value), MidByte(SextetOf(y).value, SextetOf(z).value)])
  {
  }

  lemma DecodeFour(x: char, y: char, z: char, w: char)
    ensures DecodeQuad([x, y, z, w]) ==
      if SextetOf(x).None? || SextetOf(y).None? || SextetOf(z).None? || SextetOf(w).None? then None
      else Some([HighByte(SextetOf(x).value, SextetOf(y).value), MidByte(SextetOf(y).value, SextetOf(z).value),
                 LowByte(SextetOf(z).value, SextetOf(w).value)])
  {
  }

  lemma QuadThere(bytes: seq<Byte>)
    requires |bytes| <= 3
    ensures DecodeQuad(EncodeQuad(bytes)) == Some(bytes)
  {
    if |bytes| == 1 {
      assert bytes == [bytes[0]];
      OneThere(bytes[0]);
    } else if |bytes| == 2 {
      assert bytes == [bytes[0], bytes[1]];
      TwoThere(bytes[0], bytes[1]);
    } else if |bytes| == 3 {
      assert bytes == [bytes[0], bytes[1], bytes[2]];
      ThreeThere(bytes[0], bytes[1], bytes[2]);
    }
    if bytes != [] {
      hide EncodeQuad;
      hide DecodeQuad;
    }
  }

  lemma TwoBack(x: char, y: char)
    requires DecodeQuad([x, y]).Some?
    ensures EncodeQuad(DecodeQuad([x, y]).value) == [x, y]
  {
    DecodeTwo(x, y);
    LettersAreSextets(0, x);
    LettersAreSextets(0, y);
    BytesMakeSextets(SextetOf(x).value, SextetOf(y).value, 0, 0);
    hide SextetOf;
    hide DecodeQuad;
    hide Letter;
    hide First;
    hide Second;
    hide HighByte;
    hide LowFourSet;
  }

  lemma ThreeBack(x: char, y: char, z: char)
    requires DecodeQuad([x, y, z]).Some?
    ensures EncodeQuad(DecodeQuad([x, y, z]).value) == [x, y, z]
  {
    DecodeThree(x, y, z);
    LettersAreSextets(0, x);
    LettersAreSextets(0, y);
    LettersAreSextets(0, z);
    BytesMakeSextets(SextetOf(x).value, SextetOf(y).value, SextetOf(z).value, 0);
    hide SextetOf;
    hide DecodeQuad;
    hide Letter;
    hide First;
    hide Second;
    hide Third;
    hide HighByte;
    hide MidByte;
    hide LowTwoSet;
  }

  lemma FourBack(x: char, y: char, z: char, w: char)
    requires DecodeQuad([x, y, z, w]).Some?
    ensures EncodeQuad(DecodeQuad([x, y, z, w]).value) == [x, y, z, w]
  {
    DecodeFour(x, y, z, w);
    LettersAreSextets(0, x);
    LettersAreSextets(0, y);
    LettersAreSextets(0, z);
    LettersAreSextets(0, w);
    BytesMakeSextets(SextetOf(x).value, SextetOf(y).value, SextetOf(z).value, SextetOf(w).value);
    hide SextetOf;
    hide DecodeQuad;
    hide Letter;
    hide First;
    hide Second;
    hide Third;
    hide Fourth;
    hide HighByte;
    hide MidByte;
    hide LowByte;
  }

  lemma QuadBack(text: string)
    requires |text| <= 4 && DecodeQuad(text).Some?
    ensures EncodeQuad(DecodeQuad(text).value) == text
  {
    if |text| == 2 {
      assert text == [text[0], text[1]];
      TwoBack(text[0], text[1]);
    } else if |text| == 3 {
      assert text == [text[0], text[1], text[2]];
      ThreeBack(text[0], text[1], text[2]);
    } else if |text| == 4 {
      assert text == [text[0], text[1], text[2], text[3]];
      FourBack(text[0], text[1], text[2], text[3]);
    }
    if text != "" {
      hide EncodeQuad;
      hide DecodeQuad;
    }
  }

  /** Decoding any encoding returns the bytes. */
  lemma {:induction false} DecodeUndoesEncode(bytes: seq<Byte>)
    ensures Decoded(Encoded(bytes)) == Some(bytes)
    ensures bytes != [] ==> Encoded(bytes) != ""
  {
    hide EncodeQuad;
    hide DecodeQuad;
    if |bytes| <= 3 {
      QuadThere(bytes);
    } else {
      var head := EncodeQuad(bytes[..3]);
      QuadThere(bytes[..3]);
      DecodeUndoesEncode(bytes[3..]);
      assert Encoded(bytes)[..4] == head && Encoded(bytes)[4..] == Encoded(bytes[3..]);
      assert bytes == bytes[..3] + bytes[3..];
    }
  }

  /** Re-encoding any accepted text returns that text, and only the empty text stands for no bytes. */
  lemma {:induction false} EncodeUndoesDecode(text: string)
    requires Decoded(text).Some?
    ensures Encoded(Decoded(text).value) == text
    ensures text != "" ==> Decoded(text).value != []
  {
    hide EncodeQuad;
    hide DecodeQuad;
    if |text| <= 4 {
      QuadBack(text);
    } else {
      QuadBack(text[..4]);
      EncodeUndoesDecode(text[4..]);
      var head, rest, bytes := DecodeQuad(text[..4]).value, Decoded(text[4..]).value, Decoded(text).value;
      assert bytes[..3] == head && bytes[3..] == rest;
      assert text == text[..4] + text[4..];
    }
  }

  /** No two texts decode to the same bytes. */
  lemma OneTextPerValue(a: string, b: string)
    requires Decoded(a).Some? && Decoded(a) == Decoded(b)
    ensures a == b
  {
    EncodeUndoesDecode(a);
    EncodeUndoesDecode(b);
  }

  // ---------------------------------------------------------------------
  // The encoder.
  // ---------------------------------------------------------------------

  /** Four characters for up to three bytes, padded. */
  function PaddedQuad(bytes: seq<Byte>): string
    requires bytes != []
  {
    var a, b, c := bytes[0], if |bytes| > 1 then bytes[1] else 0, if |bytes| > 2 then bytes[2] else 0;
    [StandardLetter(First(a)), StandardLetter(Second(a, b)),
     if |bytes| > 1 then StandardLetter(Third(b, c)) else '=', if |bytes| > 2 then StandardLetter(Fourth(c)) else '=']
  }

  function Padded(bytes: seq<Byte>): string {
    if bytes == [] then "" else PaddedQuad(bytes) + if |bytes| <= 3 then "" else Padded(bytes[3..])
  }

  function ToUrl(text: string): (url: string)
    ensures |url| == |text| && forall i | 0 <= i < |text| :: url[i] == UrlLetter(text[i])
  {
    seq(|text|, i requires 0 <= i < |text| => UrlLetter(text[i]))
  }

  function Trimmed(text: string): string {
    if text != "" && text[|text| - 1] == '=' then Trimmed(text[..|text| - 1]) else text
  }

  lemma Shifted18(n: nat, q: nat, r: nat)
    requires n == q * 262144 + r && r < 262144
    ensures n / 262144 == q
  {
  }

  lemma Shifted12(n: nat, q: nat, r: nat)
    requires n == q * 4096 + r && r < 4096
    ensures n / 4096 == q
  {
  }

  lemma Shifted6(n: nat, q: nat, r: nat)
    requires n == q * 64 + r && r < 64
    ensures n / 64 == q && n % 64 == r
  {
  }

  /** The characters shifted out of a 24-bit group are the group's sextets. */
  lemma ShiftedOut(a: Byte, b: Byte, c: Byte, n: nat)
    requires n == 65536 * a + 256 * b + c
    ensures n / 262144 % 64 == First(a) && n / 4096 % 64 == Second(a, b) && n / 64 % 64 == Third(b, c) && n % 64 == Fourth(c)
  {
    var i, j, k: nat := First(a), 64 * First(a) + Second(a, b), 4096 * First(a) + 64 * Second(a, b) + Third(b, c);
    Shifted18(n, i, 65536 * (a % 4) + 256 * b + c);
    Shifted12(n, j, 256 * (b % 16) + c);
    Shifted6(n, k, c % 64);
    Shifted6(j, i, Second(a, b));
    Shifted6(k, j, Third(b, c));
  }

  /** The encoder's step: three bytes, or what is left, into a group and out of it by shifts. */
  method EncodeGroup(bytes: seq<Byte>) returns (quad: string)
    requires bytes != []
    ensures quad == PaddedQuad(bytes)
  {
    var a: nat, b: nat, c: nat := bytes[0], 0, 0;
    if |bytes| > 1 { b := bytes[1]; }
    if |bytes| > 2 { c := bytes[2]; }
    var n: nat := 65536 * a + 256 * b + c;
    ShiftedOut(a, b, c, n);
    hide StandardLetter;
    hide First;
    hide Second;
    hide Third;
    hide Fourth;
    quad := [StandardLetter(n / 262144 % 64), StandardLetter(n / 4096 % 64)];
    quad := quad + [if |bytes| > 1 then StandardLetter(n / 64 % 64) else '='];
    quad := quad + [if |bytes| > 2 then StandardLetter(n % 64) else '='];
  }

  method EncodePadded(bytes: seq<Byte>) returns (out: string)
    ensures out == Padded(bytes)
  {
    hide PaddedQuad;
    out := "";
    var i := 0;
    while i < |bytes|
      invariant i < |bytes| ==> out + Padded(bytes[i..]) == Padded(bytes)
      invariant i >= |bytes| ==> out == Padded(bytes)
      decreases |bytes| - i
    {
      var quad := EncodeGroup(bytes[i..]);
      if i + 3 < |bytes| {
        assert bytes[i..][3..] == bytes[i + 3..];
        assert out + (quad + Padded(bytes[i + 3..])) == (out + quad) + Padded(bytes[i + 3..]);
      } else {
        assert quad + "" == quad;
      }
      out := out + quad;
      i := i + 3;
    }
  }

  method Encode(bytes: seq<Byte>) returns (out: string)
    ensures out == Encoded(bytes)
  {
    var padded := EncodePadded(bytes);
    out := "";
    for i := 0 to |padded|
      invariant out == ToUrl(padded[..i])
    {
      out := out + [UrlLetter(padded[i])];
    }
    assert padded[..|padded|] == padded;
    ghost var url := out;
    while out != "" && out[|out| - 1] == '='
      invariant Trimmed(out) == Trimmed(url)
      decreases |out|
    {
      out := out[..|out| - 1];
    }
    TrimmedIsEncoded(bytes);
  }

  lemma {:induction false} TrimmedConcat(a: string, b: string)
    requires Trimmed(b) != ""
    ensures Trimmed(a + b) == a + Trimmed(b)
    decreases |b|
  {
    if b[|b| - 1] == '=' {
      assert (a + b)[..|a + b| - 1] == a + b[..|b| - 1];
      TrimmedConcat(a, b[..|b| - 1]);
    }
  }

  lemma UrlOfStandard(s: Sextet)
    ensures UrlLetter(StandardLetter(s)) == Letter(s) && Letter(s) != '='
  {
  }

  lemma TrimQuad(q: string)
    requires |q| == 4 && q[1] != '=' && (q[2] == '=' ==> q[3] == '=')
    ensures Trimmed(q) == if q[3] != '=' then q else if q[2] != '=' then q[..3] else q[..2]
  {
    assert q[..3][..2] == q[..2];
    assert Trimmed(q[..2]) == q[..2];
    assert Trimmed(q[..3]) == if q[2] != '=' then q[..3] else q[..2];
  }

  lemma QuadIsEncoded(bytes: seq<Byte>)
    requires 0 < |bytes| <= 3
    ensures Trimmed(ToUrl(PaddedQuad(bytes))) == EncodeQuad(bytes)
    ensures |bytes| == 3 ==> ToUrl(PaddedQuad(bytes)) == EncodeQuad(bytes)
  {
    var a, b, c := bytes[0], if |bytes| > 1 then bytes[1] else 0, if |bytes| > 2 then bytes[2] else 0;
    UrlOfStandard(First(a));
    UrlOfStandard(Second(a, b));
    UrlOfStandard(Third(b, c));
    UrlOfStandard(Fourth(c));
    hide StandardLetter;
    hide Letter;
    hide First;
    hide Second;
    hide Third;
    hide Fourth;
    TrimQuad(ToUrl(PaddedQuad(bytes)));
    hide Trimmed;
    assert |bytes| == 3 ==> ToUrl(PaddedQuad(bytes)) == EncodeQuad(bytes);
  }

  /** Rewriting and trimming the padded form gives the encoding. */
  lemma {:induction false} TrimmedIsEncoded(bytes: seq<Byte>)
    ensures Trimmed(ToUrl(Padded(bytes))) == Encoded(bytes)
  {
    if 0 < |bytes| <= 3 {
      assert PaddedQuad(bytes) + "" == PaddedQuad(bytes);
      QuadIsEncoded(bytes);
    } else if bytes != [] {
      var head, rest := PaddedQuad(bytes), Padded(bytes[3..]);
      assert head == PaddedQuad(bytes[..3]);
      hide PaddedQuad;
      hide EncodeQuad;
      QuadIsEncoded(bytes[..3]);
      TrimmedIsEncoded(bytes[3..]);
      DecodeUndoesEncode(bytes[3..]);
      assert ToUrl(head + rest) == ToUrl(head) + ToUrl(rest);
      TrimmedConcat(ToUrl(head), ToUrl(rest));
    }
  }

  // ---------------------------------------------------------------------
  // The decoder.
  // ---------------------------------------------------------------------

  /** The decoder's step: two to four letters into bytes by shifts cut to eight bits. */
  method DecodeGroup(text: string) returns (bytes: Option<seq<Byte>>)
    requires 2 <= |text| <= 4
    ensures bytes == DecodeQuad(text)
  {
    hide SextetOf;
    hide HighByte;
    hide MidByte;
    hide LowByte;
    hide LowFourSet;
    hide LowTwoSet;
    var p, q := SextetOf(text[0]), SextetOf(text[1]);
    if p.None? || q.None? { return None; }
    var high := JoinHigh(p.value, q.value);
    if |text| == 2 {
      if LowFourSet(q.value) { return None; }
      return Some([high]);
    }
    var r := SextetOf(text[2]);
    if r.None? { return None; }
    var mid := JoinMid(q.value, r.value);
    if |text| == 3 {
      if LowTwoSet(r.value) { return None; }
      return Some([high, mid]);
    }
    var s := SextetOf(text[3]);
    if s.None? { return None; }
    var low := JoinLow(r.value, s.value);
    return Some([high, mid, low]);
  }

  method JoinHigh(p: Sextet, q: Sextet) returns (x: Byte)
    ensures x == HighByte(p, q)
  {
    var a: nat, b: nat := p, q;
    x := 4 * a + b / 16;
  }

  method JoinMid(q: Sextet, r: Sextet) returns (x: Byte)
    ensures x == MidByte(q, r)
  {
    var b: nat, c: nat := q, r;
    x := (16 * b + c / 4) % 256;
  }

  method JoinLow(r: Sextet, s: Sextet) returns (x: Byte)
    ensures x == LowByte(r, s)
  {
    var c: nat, d: nat := r, s;
    x := (64 * c + d) % 256;
  }

  /** The bytes of a canonical text; nothing for any other text. */
  method Decode(text: string) returns (result: seq<Byte>)
    ensures result == if Decoded(text).Some? then Decoded(text).value else []
  {
    if text == "" || |text| % 4 == 1 {
      if text != "" { BadLength(text); }
      return [];
    }
    hide DecodeQuad;
    result := [];
    var pos := 0;
    ghost var groups: nat := 0;
    assert text[0..] == text;
    assert Both(Some([]), Decoded(text)) == Decoded(text) by {
      if Decoded(text).Some? { assert [] + Decoded(text).value == Decoded(text).value; }
    }
    while |text| - pos > 4
      invariant pos < |text| && pos == 4 * groups
      invariant Both(Some(result), Decoded(text[pos..])) == Decoded(text)
    {
      DecodedStep(text, pos);
      hide Decoded;
      var bytes := DecodeGroup(text[pos..pos + 4]);
      if bytes.None? { return []; }
      BothAssociates(result, bytes.value, Decoded(text[pos + 4..]));
      result := result + bytes.value;
      pos := pos + 4;
      groups := groups + 1;
    }
    LastGroup(|text|, groups);
    assert Decoded(text[pos..]) == DecodeQuad(text[pos..]);
    hide Decoded;
    var last := DecodeGroup(text[pos..]);
    if last.None? { return []; }
    result := result + last.value;
  }

  lemma DecodedStep(text: string, pos: nat)
    requires pos + 4 < |text|
    ensures Decoded(text[pos..]) == Both(DecodeQuad(text[pos..pos + 4]), Decoded(text[pos + 4..]))
  {
    var rest := text[pos..];
    assert rest[..4] == text[pos..pos + 4] && rest[4..] == text[pos + 4..];
    hide DecodeQuad;
  }

  lemma LastGroup(n: nat, groups: nat)
    requires n % 4 != 1
    ensures n - 4 * groups != 1
  {
  }

  lemma BothAssociates(a: seq<Byte>, b: seq<Byte>, c: Option<seq<Byte>>)
    ensures Both(Some(a), Both(Some(b), c)) == Both(Some(a + b), c)
  {
    if c.Some? { assert a + (b + c.value) == (a + b) + c.value; }
  }

  lemma {:induction false} BadLength(text: string)
    requires |text| % 4 == 1
    ensures Decoded(text) == None
  {
    hide SextetOf;
    if |text| > 4 {
      hide DecodeQuad;
      BadLength(text[4..]);
    }
  }
}
