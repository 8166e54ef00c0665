/**
  The fields that wire messages and snapshot files are made of: fixed-width
  numbers, length-prefixed byte strings and length-prefixed runs of 32-bit
  floats, little-endian.  Messages prefix a string with 32 bits (Str), snapshots
  with 64 (Text).
 */
module Fields {
  import opened Vectors
  import opened Bytes

  datatype Kind = KU8 | KU32 | KU64 | KStr | KText | KEmb

  /** Floating-point numbers travel as their bit patterns. */
  datatype Field = U8(v: nat) | U32(v: nat) | U64(v: nat) | Str(s: string) | Text(s: string) | Emb(es: seq<nat>)

  function KindOf(f: Field): Kind {
    match f
    case U8(_) => KU8
    case U32(_) => KU32
    case U64(_) => KU64
    case Str(_) => KStr
    case Text(_) => KText
    case Emb(_) => KEmb
  }

  /** The values that survive the trip. */
  predicate Fits(f: Field) {
    match f
    case U8(v) => v < 256
    case U32(v) => v < TWO_32
    case U64(v) => v < TWO_64
    case Str(s) => |s| < TWO_32 && ByteString(s)
    case Text(s) => |s| <= INT32_MAX && ByteString(s)
    case Emb(es) => |es| <= INT32_MAX && forall i | 0 <= i < |es| :: es[i] < TWO_32
  }

  function Floats(es: seq<nat>): (bytes: seq<Byte>)
    ensures |bytes| == 4 * |es|
  {
    if es == [] then [] else Little(es[0], 4) + Floats(es[1..])
  }

  function Prefixed(s: string, width: nat): seq<Byte> {
    Little(|s|, width) + FromString(s)
  }

  /** A field's bytes; lengths are cut to the width of their prefix. */
  function Put(f: Field): seq<Byte> {
    match f
    case U8(v) => [v % 256]
    case U32(v) => Little(v, 4)
    case U64(v) => Little(v, 8)
    case Str(s) => Prefixed(s, 4)
    case Text(s) => Prefixed(s, 8)
    case Emb(es) => Little(|es|, 4) + Floats(es)
  }

  function ReadFloats(data: seq<Byte>, n: nat): (es: seq<nat>)
    requires 4 * n <= |data|
    ensures |es| == n
  {
    if n == 0 then [] else [Number(data[..4])] + ReadFloats(data[4..], n - 1)
  }

  /** The string at the front of the data, unless it is cut short or over the limit. */
  function Unprefixed(data: seq<Byte>, width: nat, limit: nat): (r: Option<(string, nat)>)
    ensures r.Some? ==> r.value.1 <= |data|
  {
    if |data| < width then None
    else
      var n := Number(data[..width]);
      if n > limit || |data| < width + n then None else Some((ToString(data[width..width + n]), width + n))
  }

  /** A field read from the front of the data, and the bytes it took. */
  function Get(kind: Kind, data: seq<Byte>): (r: Option<(Field, nat)>)
    ensures r.Some? ==> r.value.1 <= |data|
  {
    match kind
    case KU8 => if |data| < 1 then None else Some((U8(data[0]), 1))
    case KU32 => if |data| < 4 then None else Some((U32(Number(data[..4])), 4))
    case KU64 => if |data| < 8 then None else Some((U64(Number(data[..8])), 8))
    case KStr =>
      var r := Unprefixed(data, 4, TWO_32);
      if r.None? then None else Some((Str(r.value.0), r.value.1))
    case KText =>
      var r := Unprefixed(data, 8, INT32_MAX);
      if r.None? then None else Some((Text(r.value.0), r.value.1))
    case KEmb =>
      if |data| < 4 then None
      else
        var n := Number(data[..4]);
        if n > INT32_MAX || |data| < 4 + 4 * n then None else Some((Emb(ReadFloats(data[4..4 + 4 * n], n)), 4 + 4 * n))
  }

  lemma FloatsNext(es: seq<nat>)
    requires es != []
    ensures Floats(es)[..4] == Little(es[0], 4) && Floats(es)[4..] == Floats(es[1..])
  {
    hide Little;
  }

  lemma ReadFloatsFirst(data: seq<Byte>, n: nat)
    requires 0 < 4 * n <= |data|
    ensures ReadFloats(data, n) == [Number(data[..4])] + ReadFloats(data[4..], n - 1)
  {
    hide Number;
  }

  lemma {:induction false} FloatsThere(es: seq<nat>)
    requires forall i | 0 <= i < |es| :: es[i] < TWO_32
    ensures ReadFloats(Floats(es), |es|) == es
  {
    if es != [] {
      Widths();
      hide *;
      NumberOfLittle(es[0], 4);
      FloatsThere(es[1..]);
      FloatsNext(es);
      ReadFloatsFirst(Floats(es), |es|);
      assert es == [es[0]] + es[1..];
    }
  }

  lemma {:induction false} FloatsBack(data: seq<Byte>, n: nat)
    requires |data| == 4 * n
    ensures Floats(ReadFloats(data, n)) == data
    ensures forall i | 0 <= i < n :: ReadFloats(data, n)[i] < TWO_32
  {
    if n > 0 {
      hide Little;
      hide Number;
      FloatsBack(data[4..], n - 1);
      Widths();
      LittleOfNumber(data[..4]);
      var es := ReadFloats(data, n);
      assert es[1..] == ReadFloats(data[4..], n - 1);
      assert data == data[..4] + data[4..];
    }
  }

  lemma Fronts(a: seq<Byte>, b: seq<Byte>, c: seq<Byte>)
    ensures (a + b + c)[..|a|] == a && (a + b + c)[|a|..|a| + |b|] == b
  {
  }

  lemma NumberThere(v: nat, width: nat, rest: seq<Byte>)
    requires v < Pow(width)
    ensures |Little(v, width) + rest| >= width && Number((Little(v, width) + rest)[..width]) == v
  {
    NumberOfLittle(v, width);
    assert (Little(v, width) + rest)[..width] == Little(v, width);
  }

  lemma PrefixedThere(s: string, width: nat, limit: nat, rest: seq<Byte>)
    requires |s| < Pow(width) && |s| <= limit && ByteString(s)
    ensures Unprefixed(Prefixed(s, width) + rest, width, limit) == Some((s, |Prefixed(s, width)|))
  {
    hide Little;
    hide Number;
    hide Pow;
    var head, body := Little(|s|, width), FromString(s);
    NumberThere(|s|, width, body + rest);
    assert head + body + rest == head + (body + rest);
    Fronts(head, body, rest);
    StringThere(s);
    hide FromString;
    hide ToString;
  }

  lemma EmbThere(es: seq<nat>, rest: seq<Byte>)
    requires Fits(Emb(es))
    ensures Get(KEmb, Put(Emb(es)) + rest) == Some((Emb(es), |Put(Emb(es))|))
  {
    Widths();
    hide Little;
    hide Number;
    hide Floats;
    hide ReadFloats;
    hide Pow;
    var head, body := Little(|es|, 4), Floats(es);
    NumberThere(|es|, 4, body + rest);
    Joined(head, body, rest);
    Fronts(head, body, rest);
    FloatsThere(es);
    var all := Put(Emb(es)) + rest;
    assert all[..4] == head && all[4..4 + 4 * |es|] == body;
  }

  /** A field that fits is read back, whatever follows it. */
  lemma GetUndoesPut(f: Field, rest: seq<Byte>)
    requires Fits(f)
    ensures Get(KindOf(f), Put(f) + rest) == Some((f, |Put(f)|))
  {
    if f.Str? {
      Widths();
      PrefixedThere(f.s, 4, TWO_32, rest);
      hide Prefixed;
      hide Unprefixed;
    } else if f.Text? {
      Widths();
      PrefixedThere(f.s, 8, INT32_MAX, rest);
      hide Prefixed;
      hide Unprefixed;
    } else if f.Emb? {
      EmbThere(f.es, rest);
    } else {
      Widths();
      if f.U32? { NumberThere(f.v, 4, rest); }
      if f.U64? { NumberThere(f.v, 8, rest); }
      hide Little;
      hide Number;
      hide Pow;
    }
  }

  lemma PrefixedBack(data: seq<Byte>, width: nat, limit: nat)
    requires Unprefixed(data, width, limit).Some?
    ensures var s, n := Unprefixed(data, width, limit).value.0, Unprefixed(data, width, limit).value.1;
      |s| <= limit && |s| < Pow(width) && ByteString(s) && data[..n] == Prefixed(s, width)
  {
    hide Little;
    hide Number;
    var n := Number(data[..width]);
    LittleOfNumber(data[..width]);
    hide Pow;
    StringBack(data[width..width + n]);
    assert data[..width + n] == data[..width] + data[width..width + n];
  }

  lemma EmbBack(data: seq<Byte>)
    requires Get(KEmb, data).Some?
    ensures var f, n := Get(KEmb, data).value.0, Get(KEmb, data).value.1;
      KindOf(f) == KEmb && Fits(f) && data[..n] == Put(f)
  {
    hide Little;
    hide Number;
    hide Floats;
    hide ReadFloats;
    Widths();
    var n := Number(data[..4]);
    LittleOfNumber(data[..4]);
    hide Pow;
    FloatsBack(data[4..4 + 4 * n], n);
    assert data[..4 + 4 * n] == data[..4] + data[4..4 + 4 * n];
  }

  /** What is read is exactly the bytes of a field that fits. */
  lemma GetIsPut(kind: Kind, data: seq<Byte>)
    requires Get(kind, data).Some?
    ensures var f, n := Get(kind, data).value.0, Get(kind, data).value.1;
      KindOf(f) == kind && Fits(f) && data[..n] == Put(f)
  {
    if kind == KStr {
      Widths();
      PrefixedBack(data, 4, TWO_32);
      hide Prefixed;
      hide Unprefixed;
    } else if kind == KText {
      PrefixedBack(data, 8, INT32_MAX);
      hide Prefixed;
      hide Unprefixed;
    } else if kind == KEmb {
      EmbBack(data);
      hide Get;
      hide Put;
      hide Fits;
    } else {
      Widths();
      if kind == KU32 { LittleOfNumber(data[..4]); }
      if kind == KU64 { LittleOfNumber(data[..8]); }
      hide Little;
      hide Number;
      hide Pow;
    }
  }

  // ---------------------------------------------------------------------
  // Lists of fields.
  // ---------------------------------------------------------------------

  function Kinds(fs: seq<Field>): (ks: seq<Kind>)
    ensures |ks| == |fs|
    ensures forall i | 0 <= i < |fs| :: ks[i] == KindOf(fs[i])
  {
    seq(|fs|, i requires 0 <= i < |fs| => KindOf(fs[i]))
  }

  predicate AllFit(fs: seq<Field>) {
    forall i | 0 <= i < |fs| :: Fits(fs[i])
  }

  function PutAll(fs: seq<Field>): seq<Byte> {
    if fs == [] then [] else Put(fs[0]) + PutAll(fs[1..])
  }

  function GetAll(kinds: seq<Kind>, data: seq<Byte>): (r: Option<(seq<Field>, nat)>)
    ensures r.Some? ==> r.value.1 <= |data| && |r.value.0| == |kinds|
  {
    if kinds == [] then Some(([], 0))
    else
      var first := Get(kinds[0], data);
      if first.None? then None
      else
        var rest := GetAll(kinds[1..], data[first.value.1..]);
        if rest.None? then None else Some(([first.value.0] + rest.value.0, first.value.1 + rest.value.1))
  }

  lemma GetAllNext(kinds: seq<Kind>, data: seq<Byte>, f: Field, n: nat)
    requires kinds != [] && Get(kinds[0], data) == Some((f, n)) && n <= |data|
    ensures var rest := GetAll(kinds[1..], data[n..]);
      GetAll(kinds, data) == if rest.None? then None else Some(([f] + rest.value.0, n + rest.value.1))
  {
    hide Get;
  }

  lemma {:induction false} GetAllUndoesPutAll(fs: seq<Field>, rest: seq<Byte>)
    requires AllFit(fs)
    ensures GetAll(Kinds(fs), PutAll(fs) + rest) == Some((fs, |PutAll(fs)|))
  {
    hide Put;
    hide Get;
    hide Fits;
    hide KindOf;
    if fs == [] {
      assert PutAll(fs) + rest == rest;
    } else {
      hide GetAll;
      var head, tail := Put(fs[0]), PutAll(fs[1..]) + rest;
      Joined(head, PutAll(fs[1..]), rest);
      var data := head + tail;
      assert data == PutAll(fs) + rest;
      GetUndoesPut(fs[0], tail);
      GetAllUndoesPutAll(fs[1..], rest);
      assert data[|head|..] == tail;
      assert Kinds(fs)[0] == KindOf(fs[0]) && Kinds(fs)[1..] == Kinds(fs[1..]);
      assert fs == [fs[0]] + fs[1..];
      GetAllNext(Kinds(fs), data, fs[0], |head|);
    }
  }

  lemma {:induction false} GetAllIsPutAll(kinds: seq<Kind>, data: seq<Byte>)
    requires GetAll(kinds, data).Some?
    ensures var fs, n := GetAll(kinds, data).value.0, GetAll(kinds, data).value.1;
      Kinds(fs) == kinds && AllFit(fs) && data[..n] == PutAll(fs)
  {
    hide Put;
    hide Get;
    hide Fits;
    if kinds != [] {
      var f, n := Get(kinds[0], data).value.0, Get(kinds[0], data).value.1;
      var rest := GetAll(kinds[1..], data[n..]).value;
      GetIsPut(kinds[0], data);
      GetAllIsPutAll(kinds[1..], data[n..]);
      GetAllNext(kinds, data, f, n);
      hide GetAll;
      var fs := [f] + rest.0;
      assert fs[1..] == rest.0;
      Sliced(data, n, rest.1);
      assert kinds == [kinds[0]] + kinds[1..];
      AllFitMore(f, rest.0);
      hide AllFit;
    }
  }

  lemma {:induction false} PutAllUpdate(fs: seq<Field>, i: nat, f: Field)
    requires i < |fs| && |Put(f)| == |Put(fs[i])|
    ensures |PutAll(fs[i := f])| == |PutAll(fs)|
  {
    hide Put;
    if i > 0 {
      PutAllUpdate(fs[1..], i - 1, f);
      assert fs[i := f][1..] == fs[1..][i - 1 := f];
    } else {
      assert fs[i := f][1..] == fs[1..];
    }
  }

  lemma {:induction false} PutAllShort(fs: seq<Field>, most: nat)
    requires forall i | 0 <= i < |fs| :: |Put(fs[i])| <= most
    ensures |PutAll(fs)| <= most * |fs|
  {
    hide Put;
    if fs != [] {
      PutAllShort(fs[1..], most);
    }
  }

  lemma Sliced(data: seq<Byte>, n: nat, m: nat)
    requires n + m <= |data|
    ensures data[..n + m] == data[..n] + data[n..][..m]
  {
  }

  lemma AllFitMore(f: Field, rest: seq<Field>)
    requires Fits(f) && AllFit(rest)
    ensures AllFit([f] + rest)
  {
    hide Fits;
  }

  /** What is read does not depend on what follows it. */
  lemma GetAllStable(kinds: seq<Kind>, a: seq<Byte>, b: seq<Byte>)
    requires GetAll(kinds, a).Some? && a <= b
    ensures GetAll(kinds, b) == GetAll(kinds, a)
  {
    hide GetAll;
    var fs, n := GetAll(kinds, a).value.0, GetAll(kinds, a).value.1;
    GetAllIsPutAll(kinds, a);
    GetAllUndoesPutAll(fs, b[n..]);
    assert b[..n] == a[..n];
    assert b == b[..n] + b[n..];
  }

  /** The bytes a number takes. */
  function Width(k: Kind): nat {
    match k
    case KU8 => 1
    case KU32 => 4
    case KU64 => 8
    case _ => 0
  }

  function Total(kinds: seq<Kind>): nat {
    if kinds == [] then 0 else Width(kinds[0]) + Total(kinds[1..])
  }

  /** Numbers are read from any data that is long enough. */
  lemma {:induction false} NumbersNeed(kinds: seq<Kind>, data: seq<Byte>)
    requires forall i | 0 <= i < |kinds| :: Width(kinds[i]) > 0
    ensures GetAll(kinds, data).Some? <==> |data| >= Total(kinds)
    ensures GetAll(kinds, data).Some? ==> GetAll(kinds, data).value.1 == Total(kinds)
    decreases |kinds|
  {
    if kinds != [] && |data| >= Width(kinds[0]) {
      GetNumber(kinds[0], data);
      hide Get;
      NumbersNeed(kinds[1..], data[Width(kinds[0])..]);
    }
  }

  lemma GetNumber(kind: Kind, data: seq<Byte>)
    requires 0 < Width(kind) <= |data|
    ensures Get(kind, data).Some? && Get(kind, data).value.1 == Width(kind)
  {
    hide Number;
  }

  lemma {:induction false} TotalJoin(a: seq<Kind>, b: seq<Kind>)
    ensures Total(a + b) == Total(a) + Total(b)
  {
    if a == [] {
      assert a + b == b;
    } else {
      TotalJoin(a[1..], b);
      assert (a + b)[1..] == a[1..] + b;
    }
  }

  lemma TotalOne(kind: Kind)
    ensures Total([kind]) == Width(kind)
  {
    assert [kind][1..] == [];
  }

  lemma {:induction false} TotalRun(kinds: seq<Kind>)
    requires forall i | 0 <= i < |kinds| :: kinds[i] == KU64
    ensures Total(kinds) == 8 * |kinds|
  {
    if kinds != [] {
      TotalRun(kinds[1..]);
    }
  }

  /** The number a field holds, whatever its width. */
  function NumOf(f: Field): nat {
    if f.U8? || f.U32? || f.U64? then f.v else 0
  }

  function TextOf(f: Field): string {
    if f.Str? || f.Text? then f.s else ""
  }

  function FloatsOf(f: Field): seq<nat> {
    if f.Emb? then f.es else []
  }

  /** Any byte but zero is true. */
  function Flag(f: Field): bool {
    NumOf(f) != 0
  }

  function IntOf(f: Field): int {
    Signed(NumOf(f))
  }

  function FlagField(b: bool): Field {
    U8(if b then 1 else 0)
  }

  function IntField(v: int): Field {
    U64(Unsigned(v))
  }

  lemma IntThere(v: int)
    requires Int64(v)
    ensures IntOf(IntField(v)) == v
  {
    SignedThere(v);
  }

  lemma IntBack(f: Field)
    requires f.U64? && Fits(f)
    ensures Int64(IntOf(f)) && IntField(IntOf(f)) == f
  {
    UnsignedThere(f.v);
  }

  // ---------------------------------------------------------------------
  // Writing.
  // ---------------------------------------------------------------------

  method WriteLittle(out: seq<Byte>, value: nat, width: nat) returns (more: seq<Byte>)
    ensures more == out + Little(value, width)
  {
    more := out;
    var left := value;
    assert out + Little(value, width) == more + Little(left, width);
    for i := 0 to width
      invariant more + Little(left, width - i) == out + Little(value, width)
    {
      assert more + ([left % 256] + Little(left / 256, width - i - 1)) == (more + [left % 256]) + Little(left / 256, width - i - 1);
      more := more + [left % 256];
      left := left / 256;
    }
    assert more + [] == more;
  }

  method WriteString(out: seq<Byte>, s: string, width: nat) returns (more: seq<Byte>)
    ensures more == out + Prefixed(s, width)
  {
    hide Little;
    hide FromString;
    more := WriteLittle(out, |s|, width);
    Joined(out, Little(|s|, width), FromString(s));
    more := more + FromString(s);
  }

  method WriteField(out: seq<Byte>, f: Field) returns (more: seq<Byte>)
    ensures more == out + Put(f)
  {
    hide Little;
    hide Floats;
    hide Prefixed;
    match f {
      case U8(v) => more := out + [v % 256];
      case U32(v) => more := WriteLittle(out, v, 4);
      case U64(v) => more := WriteLittle(out, v, 8);
      case Str(s) =>
        more := WriteString(out, s, 4);
      case Text(s) =>
        more := WriteString(out, s, 8);
      case Emb(es) =>
        more := WriteLittle(out, |es|, 4);
        Joined(out, Little(|es|, 4), Floats(es));
        more := WriteFloats(more, es);
    }
  }

  lemma Joined(a: seq<Byte>, b: seq<Byte>, c: seq<Byte>)
    ensures (a + b) + c == a + (b + c)
  {
  }

  method WriteFloats(out: seq<Byte>, es: seq<nat>) returns (more: seq<Byte>)
    ensures more == out + Floats(es)
  {
    hide Little;
    more := out;
    assert es[0..] == es;
    for i := 0 to |es|
      invariant more + Floats(es[i..]) == out + Floats(es)
    {
      assert es[i..][1..] == es[i + 1..];
      Joined(more, Little(es[i], 4), Floats(es[i + 1..]));
      more := WriteLittle(more, es[i], 4);
    }
    assert more + [] == more;
  }

  method WriteFields(fs: seq<Field>) returns (out: seq<Byte>)
    ensures out == PutAll(fs)
  {
    hide Put;
    out := [];
    assert fs[0..] == fs;
    for i := 0 to |fs|
      invariant out + PutAll(fs[i..]) == PutAll(fs)
    {
      assert fs[i..][1..] == fs[i + 1..];
      Joined(out, Put(fs[i]), PutAll(fs[i + 1..]));
      out := WriteField(out, fs[i]);
    }
    assert out + [] == out;
  }

  // ---------------------------------------------------------------------
  // Reading.
  // ---------------------------------------------------------------------

  /** A cursor over received bytes. */
  class Reader {
    const data: seq<Byte>
    var pos: nat

    ghost predicate Valid()
      reads this`pos
    {
      pos <= |data|
    }

    constructor (data: seq<Byte>)
      ensures Valid() && pos == 0 && this.data == data
    {
      this.data, pos := data, 0;
    }

    predicate Need(n: nat)
      requires Valid()
      reads this`pos
    {
      |data| - pos >= n
    }

    predicate Finished()
      reads this`pos
    {
      pos == |data|
    }

    method ReadLittle(width: nat) returns (value: Option<nat>)
      requires Valid()
      modifies this`pos
      ensures Valid()
      ensures value.Some? <==> old(Need(width))
      ensures value.Some? ==> value.value == Number(data[old(pos)..old(pos) + width]) && pos == old(pos) + width
      ensures value.None? ==> pos == old(pos)
    {
      if !Need(width) { return None; }
      var v: nat, i: nat := 0, width;
      assert data[pos + width..pos + width] == [];
      while i > 0
        invariant i <= width && v == Number(data[pos + i..pos + width])
      {
        i := i - 1;
        assert data[pos + i..pos + width][1..] == data[pos + i + 1..pos + width];
        var b: nat := data[pos + i];
        v := b + 256 * v;
      }
      pos := pos + width;
      return Some(v);
    }

    method ReadString(width: nat, limit: nat) returns (s: Option<string>)
      requires Valid()
      modifies this`pos
      ensures Valid() && pos >= old(pos)
      ensures s.Some? <==> Unprefixed(data[old(pos)..], width, limit).Some?
      ensures s.Some? ==> s.value == Unprefixed(data[old(pos)..], width, limit).value.0 && pos == old(pos) + Unprefixed(data[old(pos)..], width, limit).value.1
    {
      hide Number;
      ghost var left, start := data[pos..], pos;
      var n := ReadLittle(width);
      assert |left| >= width ==> left[..width] == data[start..start + width];
      if n.None? { return None; }
      if n.value > limit || !Need(n.value) { return None; }
      assert left[width..width + n.value] == data[pos..pos + n.value];
      s := Some(ToString(data[pos..pos + n.value]));
      pos := pos + n.value;
    }

    /** Reads one field; on failure the cursor may have moved. */
    method ReadField(kind: Kind) returns (f: Option<Field>)
      requires Valid()
      modifies this`pos
      ensures Valid() && pos >= old(pos)
      ensures f.Some? <==> Get(kind, data[old(pos)..]).Some?
      ensures f.Some? ==> f.value == Get(kind, data[old(pos)..]).value.0 && pos == old(pos) + Get(kind, data[old(pos)..]).value.1
    {
      ghost var left := data[pos..];
      var start := pos;
      match kind {
        case KU8 =>
          if !Need(1) { return None; }
          pos := pos + 1;
          return Some(U8(data[start]));
        case KU32 =>
          var v := ReadLittle(4);
          assert |left| >= 4 ==> left[..4] == data[start..start + 4];
          return if v.None? then None else Some(U32(v.value));
        case KU64 =>
          var v := ReadLittle(8);
          assert |left| >= 8 ==> left[..8] == data[start..start + 8];
          return if v.None? then None else Some(U64(v.value));
        case KStr =>
          var s := ReadString(4, TWO_32);
          return if s.None? then None else Some(Str(s.value));
        case KText =>
          var s := ReadString(8, INT32_MAX);
          return if s.None? then None else Some(Text(s.value));
        case KEmb =>
          f := ReadEmbedding();
      }
    }

    method ReadFloatRun(n: nat) returns (es: seq<nat>)
      requires Valid() && Need(4 * n)
      modifies this`pos
      ensures Valid() && pos == old(pos) + 4 * n
      ensures es == ReadFloats(data[old(pos)..old(pos) + 4 * n], n)
    {
      hide Number;
      hide ReadFloats;
      es := [];
      ghost var end := pos + 4 * n;
      ghost var all := ReadFloats(data[pos..end], n);
      for i := 0 to n
        invariant pos <= end <= |data| && end - pos == 4 * (n - i)
        invariant es + ReadFloats(data[pos..end], n - i) == all
      {
        ReadFloatsNext(data, pos, end, n - i, es);
        var e := ReadLittle(4);
        es := es + [e.value];
      }
      assert es + ReadFloats(data[pos..end], 0) == es;
    }

    method ReadEmbedding() returns (f: Option<Field>)
      requires Valid()
      modifies this`pos
      ensures Valid() && pos >= old(pos)
      ensures f.Some? <==> Get(KEmb, data[old(pos)..]).Some?
      ensures f.Some? ==> f.value == Get(KEmb, data[old(pos)..]).value.0 && pos == old(pos) + Get(KEmb, data[old(pos)..]).value.1
    {
      ghost var left, start := data[pos..], pos;
      var n := ReadLittle(4);
      assert |left| >= 4 ==> left[..4] == data[start..start + 4];
      if n.None? { return None; }
      if n.value > INT32_MAX || !Need(4 * n.value) { return None; }
      ghost var body := left[4..4 + 4 * n.value];
      assert body == data[pos..pos + 4 * n.value];
      var es := ReadFloatRun(n.value);
      return Some(Emb(es));
    }

    /** Reads fields of these kinds in order. */
    method ReadFields(kinds: seq<Kind>) returns (fs: Option<seq<Field>>)
      requires Valid()
      modifies this`pos
      ensures Valid() && pos >= old(pos)
      ensures fs.Some? <==> GetAll(kinds, data[old(pos)..]).Some?
      ensures fs.Some? ==> fs.value == GetAll(kinds, data[old(pos)..]).value.0 && pos == old(pos) + GetAll(kinds, data[old(pos)..]).value.1
      ensures fs.Some? ==> |fs.value| == |kinds|
    {
      hide Get;
      hide GetAll;
      hide GotUpTo;
      var got: seq<Field> := [];
      ghost var start := pos;
      NothingGotYet(kinds, data, start);
      for i := 0 to |kinds|
        invariant start <= pos <= |data|
        invariant GotUpTo(kinds, data, start, i, pos, got)
        invariant |got| == i
      {
        ghost var before := pos;
        var f := ReadField(kinds[i]);
        if f.None? {
          GotNone(kinds, data, start, i, before, got);
          return None;
        }
        GotOneMore(kinds, data, start, i, before, got, f.value, pos - before);
        got := got + [f.value];
      }
      GotAll(kinds, data, start, pos, got);
      return Some(got);
    }
  }

  lemma ReadFloatsNext(data: seq<Byte>, pos: nat, end: nat, n: nat, es: seq<nat>)
    requires pos + 4 <= end <= |data| && end - pos == 4 * n
    ensures es + ReadFloats(data[pos..end], n) == (es + [Number(data[pos..pos + 4])]) + ReadFloats(data[pos + 4..end], n - 1)
  {
    hide Number;
    var rest := data[pos..end];
    assert rest[..4] == data[pos..pos + 4] && rest[4..] == data[pos + 4..end];
  }

  /** Reading from start gives the fields got so far, then what reading on gives. */
  ghost predicate GotUpTo(kinds: seq<Kind>, data: seq<Byte>, start: nat, i: nat, pos: nat, got: seq<Field>)
    requires i <= |kinds| && start <= pos <= |data|
  {
    var whole, rest := GetAll(kinds, data[start..]), GetAll(kinds[i..], data[pos..]);
    if rest.None? then whole.None? else whole == Some((got + rest.value.0, pos - start + rest.value.1))
  }

  lemma NothingGotYet(kinds: seq<Kind>, data: seq<Byte>, start: nat)
    requires start <= |data|
    ensures GotUpTo(kinds, data, start, 0, start, [])
  {
    hide GetAll;
    assert kinds[0..] == kinds;
    var whole := GetAll(kinds, data[start..]);
    if whole.Some? { assert [] + whole.value.0 == whole.value.0; }
  }

  lemma GotOneMore(kinds: seq<Kind>, data: seq<Byte>, start: nat, i: nat, pos: nat, got: seq<Field>, f: Field, n: nat)
    requires i < |kinds| && start <= pos <= pos + n <= |data| && GotUpTo(kinds, data, start, i, pos, got)
    requires Get(kinds[i], data[pos..]) == Some((f, n))
    ensures GotUpTo(kinds, data, start, i + 1, pos + n, got + [f])
  {
    hide Get;
    hide GetAll;
    assert kinds[i..][0] == kinds[i] && kinds[i..][1..] == kinds[i + 1..];
    assert data[pos..][n..] == data[pos + n..];
    GetAllNext(kinds[i..], data[pos..], f, n);
    var rest := GetAll(kinds[i + 1..], data[pos + n..]);
    if rest.Some? { assert got + ([f] + rest.value.0) == (got + [f]) + rest.value.0; }
  }

  lemma GotNone(kinds: seq<Kind>, data: seq<Byte>, start: nat, i: nat, pos: nat, got: seq<Field>)
    requires i < |kinds| && start <= pos <= |data| && GotUpTo(kinds, data, start, i, pos, got)
    requires Get(kinds[i], data[pos..]).None?
    ensures GetAll(kinds, data[start..]).None?
  {
    hide Get;
    assert GetAll(kinds[i..], data[pos..]).None?;
  }

  lemma GotAll(kinds: seq<Kind>, data: seq<Byte>, start: nat, pos: nat, got: seq<Field>)
    requires start <= pos <= |data| && GotUpTo(kinds, data, start, |kinds|, pos, got)
    ensures GetAll(kinds, data[start..]) == Some((got, pos - start))
  {
    assert GetAll(kinds[|kinds|..], data[pos..]) == Some(([], 0));
    hide GetAll;
    assert got + [] == got;
  }
}
