/**
  Reading JSON from left to right, as functions of a text and a position, and
  the proof that they decide the grammar.
 */
module JsonScan {
  import opened Records
  import opened Vectors
  import opened JsonGrammar
  import Utf8

  // ---------------------------------------------------------------------
  // White space and numbers.
  // ---------------------------------------------------------------------

  function SpaceEnd(s: string, i: nat): (j: nat)
    requires i <= |s|
    ensures Blank(s, i, j) && (j < |s| ==> !IsSpace(s[j]))
    decreases |s| - i
  {
    if i < |s| && IsSpace(s[i]) then SpaceEnd(s, i + 1) else i
  }

  lemma BlankEnd(s: string, i: nat, j: nat)
    requires Blank(s, i, j) && (j < |s| ==> !IsSpace(s[j]))
    ensures SpaceEnd(s, i) == j
  {
    var e := SpaceEnd(s, i);
    hide SpaceEnd;
  }

  function DigitsEnd(s: string, i: nat): (j: nat)
    requires i <= |s|
    ensures i <= j <= |s| && (forall k | i <= k < j :: IsDigit(s[k])) && (j < |s| ==> !IsDigit(s[j]))
    decreases |s| - i
  {
    if i < |s| && IsDigit(s[i]) then DigitsEnd(s, i + 1) else i
  }

  lemma DigitsExact(s: string, i: nat, j: nat)
    requires i <= |s|
    ensures DigitsEnd(s, i) > i ==> Digits(s, i, DigitsEnd(s, i))
    ensures Digits(s, i, j) && (j < |s| ==> !IsDigit(s[j])) ==> DigitsEnd(s, i) == j
    ensures Digits(s, i, j) ==> j <= DigitsEnd(s, i)
  {
    var e := DigitsEnd(s, i);
    hide DigitsEnd;
    if Digits(s, i, j) {
      if j < e { assert IsDigit(s[j]); }
    }
  }

  function IntEnd(s: string, i: nat): Option<nat> {
    if i >= |s| then None
    else if s[i] == '0' then Some(i + 1)
    else if '1' <= s[i] <= '9' then Some(DigitsEnd(s, i))
    else None
  }

  function FracEnd(s: string, i: nat): Option<nat>
    requires i <= |s|
  {
    if i < |s| && s[i] == '.' then
      if DigitsEnd(s, i + 1) == i + 1 then None else Some(DigitsEnd(s, i + 1))
    else Some(i)
  }

  function ExpEnd(s: string, i: nat): Option<nat>
    requires i <= |s|
  {
    if i < |s| && (s[i] == 'e' || s[i] == 'E') then
      var k := if i + 1 < |s| && (s[i + 1] == '+' || s[i + 1] == '-') then i + 2 else i + 1;
      if DigitsEnd(s, k) == k then None else Some(DigitsEnd(s, k))
    else Some(i)
  }

  function NumberEnd(s: string, i: nat): (r: Option<nat>)
    requires i < |s|
    ensures r.Some? ==> i < r.value <= |s|
  {
    var a := IntEnd(s, if s[i] == '-' then i + 1 else i);
    if a.None? then None
    else
      var b := FracEnd(s, a.value);
      if b.None? then None else ExpEnd(s, b.value)
  }

  /** What can come after a value. */
  predicate Stop(s: string, j: nat) {
    j >= |s| || IsSpace(s[j]) || s[j] == ',' || s[j] == ']' || s[j] == '}'
  }

  lemma IntSound(s: string, i: nat)
    requires IntEnd(s, i).Some?
    ensures Int(s, i, IntEnd(s, i).value)
  {
    DigitsExact(s, i, 0);
  }

  lemma FracSound(s: string, i: nat)
    requires i <= |s| && FracEnd(s, i).Some?
    ensures Frac(s, i, FracEnd(s, i).value)
  {
    if i < |s| { DigitsExact(s, i + 1, 0); }
  }

  lemma ExpSound(s: string, i: nat)
    requires i <= |s| && ExpEnd(s, i).Some?
    ensures Exp(s, i, ExpEnd(s, i).value)
  {
    if i < |s| { DigitsExact(s, i + 1, 0); }
    if i + 1 < |s| { DigitsExact(s, i + 2, 0); }
  }

  lemma NumberSound(s: string, i: nat)
    requires i < |s| && NumberEnd(s, i).Some?
    ensures Number(s, i, NumberEnd(s, i).value)
  {
    var k := if s[i] == '-' then i + 1 else i;
    IntSound(s, k);
    var a := IntEnd(s, k).value;
    FracSound(s, a);
    var b := FracEnd(s, a).value;
    ExpSound(s, b);
    hide IntEnd;
    hide FracEnd;
    hide ExpEnd;
    hide Int;
    hide Frac;
    hide Exp;
  }

  lemma IntExact(s: string, i: nat, b: nat)
    requires Int(s, i, b) && (b < |s| ==> !IsDigit(s[b]) || s[i] == '0')
    ensures IntEnd(s, i) == Some(b)
  {
    DigitsExact(s, i, b);
  }

  lemma FracExact(s: string, b: nat, c: nat)
    requires Frac(s, b, c) && (c < |s| ==> !IsDigit(s[c])) && (b == c && b < |s| ==> s[b] != '.')
    ensures FracEnd(s, b) == Some(c)
  {
    if c != b { DigitsExact(s, b + 1, c); }
  }

  lemma ExpExact(s: string, c: nat, j: nat)
    requires Exp(s, c, j) && (j < |s| ==> !IsDigit(s[j])) && (c == j && c < |s| ==> s[c] != 'e' && s[c] != 'E')
    ensures ExpEnd(s, c) == Some(j)
  {
    if c != j {
      if Digits(s, c + 1, j) {
        assert IsDigit(s[c + 1]);
        DigitsExact(s, c + 1, j);
      } else {
        DigitsExact(s, c + 2, j);
      }
    }
  }

  lemma NumberComplete(s: string, i: nat, j: nat)
    requires Number(s, i, j) && Stop(s, j)
    ensures NumberEnd(s, i) == Some(j)
  {
    var k := if s[i] == '-' then i + 1 else i;
    var b, c :| Int(s, k, b) && Frac(s, b, c) && Exp(s, c, j);
    IntExact(s, k, b);
    FracExact(s, b, c);
    ExpExact(s, c, j);
  }

  // ---------------------------------------------------------------------
  // Strings.
  // ---------------------------------------------------------------------

  /** The next character of a string, if there is one. */
  function ItemAt(s: string, i: nat): (r: Option<(nat, string)>)
    requires i < |s|
    ensures r.Some? ==> i < r.value.0 <= |s|
  {
    if s[i] < ' ' || s[i] == '"' then None
    else if s[i] != '\\' then Some((i + 1, [s[i]]))
    else if i + 1 >= |s| then None
    else if s[i + 1] == 'u' then HexAt(s, i)
    else if Unescaped(s[i + 1]).None? then None
    else Some((i + 2, [Unescaped(s[i + 1]).value]))
  }

  function HexAt(s: string, i: nat): (r: Option<(nat, string)>)
    requires i + 1 < |s| && s[i] == '\\' && s[i + 1] == 'u'
    ensures r.Some? ==> i < r.value.0 <= |s|
  {
    var unit := Hex4(s, i + 2);
    if unit.None? then None
    else if 0xd800 <= unit.value <= 0xdbff then
      if i + 12 > |s| || s[i + 6] != '\\' || s[i + 7] != 'u' then None
      else
        var low := Hex4(s, i + 8);
        if low.None? || low.value < 0xdc00 || low.value > 0xdfff then None
        else Some((i + 12, Utf8.Encoding(PairCodePoint(unit.value, low.value))))
    else if Utf8.Scalar(unit.value) then Some((i + 6, Utf8.Encoding(unit.value)))
    else None
  }

  lemma ItemExact(s: string, i: nat, j: nat, u: string)
    requires i < |s|
    ensures Item(s, i, j, u) <==> ItemAt(s, i) == Some((j, u))
  {
    hide Utf8.Encoding;
    hide HexDigits;
  }

  function CharsAt(s: string, i: nat): (r: Option<(nat, string)>)
    requires i <= |s|
    ensures r.Some? ==> i < r.value.0 <= |s|
    decreases |s| - i
  {
    if i >= |s| then None
    else if s[i] == '"' then Some((i + 1, ""))
    else
      var item := ItemAt(s, i);
      if item.None? then None
      else
        var rest := CharsAt(s, item.value.0);
        if rest.None? then None else Some((rest.value.0, item.value.1 + rest.value.1))
  }

  lemma {:induction false} CharsExact(s: string, i: nat, j: nat, t: string)
    requires i <= |s|
    ensures Chars(s, i, j, t) <==> CharsAt(s, i) == Some((j, t))
    decreases |s| - i
  {
    if i < |s| && s[i] != '"' {
      hide ItemAt;
      hide Item;
      if Chars(s, i, j, t) {
        var k: nat, u: string :| i < k <= |s| && Item(s, i, k, u) && u <= t && Chars(s, k, j, t[|u|..]);
        ItemExact(s, i, k, u);
        CharsExact(s, k, j, t[|u|..]);
        assert t == u + t[|u|..];
      }
      if CharsAt(s, i) == Some((j, t)) {
        var k, u := ItemAt(s, i).value.0, ItemAt(s, i).value.1;
        ItemExact(s, i, k, u);
        assert t[|u|..] == CharsAt(s, k).value.1;
        CharsExact(s, k, j, t[|u|..]);
      }
    } else if i < |s| {
      QuoteIsNoItem(s, i);
    }
  }

  lemma QuoteIsNoItem(s: string, i: nat)
    requires i < |s| && s[i] == '"'
    ensures forall k: nat, u: string :: !Item(s, i, k, u)
  {
    forall k: nat, u: string ensures !Item(s, i, k, u) {
      ItemExact(s, i, k, u);
    }
  }

  function StrAt(s: string, i: nat): (r: Option<(nat, string)>)
    ensures r.Some? ==> i < r.value.0 <= |s|
  {
    if i < |s| && s[i] == '"' then CharsAt(s, i + 1) else None
  }

  lemma StrExact(s: string, i: nat, j: nat, t: string)
    ensures Str(s, i, j, t) <==> StrAt(s, i) == Some((j, t))
  {
    if i < |s| { CharsExact(s, i + 1, j, t); }
  }

  // ---------------------------------------------------------------------
  // Values.
  // ---------------------------------------------------------------------

  /** Members read: up to a closing brace, or up to the end of the text after a comma. */
  datatype Scan = ClosedAt(end: nat, ms: seq<Member>) | OpenEnd(ms: seq<Member>) | Bad

  function LiteralEnd(s: string, i: nat, word: string): Option<nat>
    requires i <= |s|
  {
    if i + |word| <= |s| && s[i..i + |word|] == word then Some(i + |word|) else None
  }

  function ValueEnd(s: string, i: nat, depth: nat): (r: Option<nat>)
    ensures r.Some? ==> i < r.value <= |s|
    decreases |s| - i, 2
  {
    if depth > MAX_DEPTH || i >= |s| then None
    else if s[i] == '"' then
      if StrAt(s, i).None? then None else Some(StrAt(s, i).value.0)
    else if s[i] == '{' then ObjectEnd(s, i + 1, depth + 1)
    else if s[i] == '[' then ArrayEnd(s, i + 1, depth + 1)
    else if s[i] == 't' then LiteralEnd(s, i, "true")
    else if s[i] == 'f' then LiteralEnd(s, i, "false")
    else if s[i] == 'n' then LiteralEnd(s, i, "null")
    else NumberEnd(s, i)
  }

  function ArrayEnd(s: string, i: nat, depth: nat): (r: Option<nat>)
    requires i <= |s|
    ensures r.Some? ==> i < r.value <= |s|
    decreases |s| - i, 4
  {
    var k := SpaceEnd(s, i);
    if k < |s| && s[k] == ']' then Some(k + 1) else ElementsEnd(s, k, depth)
  }

  function ElementsEnd(s: string, i: nat, depth: nat): (r: Option<nat>)
    requires i <= |s|
    ensures r.Some? ==> i < r.value <= |s|
    decreases |s| - i, 3
  {
    var a := ValueEnd(s, i, depth);
    if a.None? then None
    else
      var b := SpaceEnd(s, a.value);
      if b < |s| && s[b] == ',' then ElementsEnd(s, SpaceEnd(s, b + 1), depth)
      else if b < |s| && s[b] == ']' then Some(b + 1)
      else None
  }

  function ObjectEnd(s: string, i: nat, depth: nat): (r: Option<nat>)
    requires i <= |s|
    ensures r.Some? ==> i < r.value <= |s|
    decreases |s| - i, 5
  {
    var k := SpaceEnd(s, i);
    if k < |s| && s[k] == '}' then Some(k + 1)
    else
      var r := MembersAt(s, k, depth);
      if r.ClosedAt? then Some(r.end) else None
  }

  function PairAt(s: string, i: nat, depth: nat): (r: Option<(nat, Member)>)
    ensures r.Some? ==> i < r.value.0 <= |s|
    decreases |s| - i, 3
  {
    var name := StrAt(s, i);
    if name.None? then None
    else
      var b := SpaceEnd(s, name.value.0);
      if b >= |s| || s[b] != ':' then None
      else
        var c := SpaceEnd(s, b + 1);
        var e := ValueEnd(s, c, depth);
        if e.None? then None else Some((SpaceEnd(s, e.value), Member(name.value.1, c)))
  }

  function MembersAt(s: string, i: nat, depth: nat): (r: Scan)
    requires i <= |s|
    ensures r.ClosedAt? ==> i < r.end <= |s|
    decreases |s| - i, 4
  {
    if i >= |s| then OpenEnd([])
    else
      var pair := PairAt(s, i, depth);
      if pair.None? then Bad
      else
        var b, m := pair.value.0, pair.value.1;
        if b < |s| && s[b] == ',' then Prepend(m, MembersAt(s, SpaceEnd(s, b + 1), depth))
        else if b < |s| && s[b] == '}' then ClosedAt(b + 1, [m])
        else Bad
  }

  function Prepend(m: Member, r: Scan): Scan {
    match r
    case ClosedAt(end, ms) => ClosedAt(end, [m] + ms)
    case OpenEnd(ms) => OpenEnd([m] + ms)
    case Bad => Bad
  }

  // ---------------------------------------------------------------------
  // What is read is in the grammar.
  // ---------------------------------------------------------------------

  lemma {:induction false} ValueSound(s: string, i: nat, depth: nat)
    requires ValueEnd(s, i, depth).Some?
    ensures Value(s, i, ValueEnd(s, i, depth).value, depth)
    decreases |s| - i, 2
  {
    var j := ValueEnd(s, i, depth).value;
    if s[i] == '"' {
      StrExact(s, i, j, StrAt(s, i).value.1);
    } else if s[i] == '{' {
      ObjectSound(s, i + 1, depth + 1);
    } else if s[i] == '[' {
      ArraySound(s, i + 1, depth + 1);
    } else if s[i] == 't' || s[i] == 'f' || s[i] == 'n' {
    } else {
      NumberSound(s, i);
    }
    hide Str;
    hide Number;
    hide Array;
    hide Object;
    hide ArrayEnd;
    hide ObjectEnd;
    hide NumberEnd;
    hide StrAt;
  }

  lemma {:induction false} ArraySound(s: string, i: nat, depth: nat)
    requires i <= |s| && ArrayEnd(s, i, depth).Some?
    ensures Array(s, i, ArrayEnd(s, i, depth).value, depth)
    decreases |s| - i, 4
  {
    var k := SpaceEnd(s, i);
    hide SpaceEnd;
    hide ElementsEnd;
    hide Elements;
    if !(k < |s| && s[k] == ']') {
      ElementsSound(s, k, depth);
    }
  }

  lemma ElementsNext(s: string, i: nat, depth: nat)
    requires i <= |s| && ValueEnd(s, i, depth).Some?
    ensures var b := SpaceEnd(s, ValueEnd(s, i, depth).value);
      ElementsEnd(s, i, depth) ==
        if b < |s| && s[b] == ',' then ElementsEnd(s, SpaceEnd(s, b + 1), depth)
        else if b < |s| && s[b] == ']' then Some(b + 1)
        else None
  {
    hide ValueEnd;
    hide SpaceEnd;
  }

  lemma ElementsNeedValue(s: string, i: nat, depth: nat)
    requires i <= |s| && ElementsEnd(s, i, depth).Some?
    ensures ValueEnd(s, i, depth).Some?
  {
    hide ValueEnd;
    hide SpaceEnd;
  }

  lemma ElementsLast(s: string, i: nat, a: nat, b: nat, depth: nat)
    requires i < a <= b < |s| && Value(s, i, a, depth) && Blank(s, a, b) && s[b] == ']'
    ensures Elements(s, i, b + 1, depth)
  {
    hide Value;
    hide Blank;
  }

  lemma ElementsMore(s: string, i: nat, a: nat, b: nat, c: nat, j: nat, depth: nat)
    requires i < a <= b < c < |s| && Value(s, i, a, depth) && Blank(s, a, b) && s[b] == ',' && Blank(s, b + 1, c) && Elements(s, c, j, depth)
    ensures Elements(s, i, j, depth)
  {
    assert MoreElements(s, b + 1, j, depth) by {
      hide Blank;
      hide Elements;
    }
    hide Value;
    hide Blank;
    hide MoreElements;
  }

  lemma SpaceEndMeans(s: string, i: nat)
    requires i <= |s|
    ensures i <= SpaceEnd(s, i) <= |s| && Blank(s, i, SpaceEnd(s, i)) && (SpaceEnd(s, i) < |s| ==> !IsSpace(s[SpaceEnd(s, i)]))
  {
    hide SpaceEnd;
  }

  lemma {:induction false} ElementsSound(s: string, i: nat, depth: nat)
    requires i <= |s| && ElementsEnd(s, i, depth).Some?
    ensures Elements(s, i, ElementsEnd(s, i, depth).value, depth)
    decreases |s| - i, 3
  {
    hide *;
    ElementsNeedValue(s, i, depth);
    ElementsNext(s, i, depth);
    var a := ValueEnd(s, i, depth).value;
    ValueSound(s, i, depth);
    var b := SpaceEnd(s, a);
    SpaceEndMeans(s, a);
    if s[b] == ',' {
      var c := SpaceEnd(s, b + 1);
      SpaceEndMeans(s, b + 1);
      ElementsSound(s, c, depth);
      NonEmptyElements(s, c, depth);
      ElementsMore(s, i, a, b, c, ElementsEnd(s, c, depth).value, depth);
    } else {
      ElementsLast(s, i, a, b, depth);
    }
  }

  lemma NonEmptyElements(s: string, i: nat, depth: nat)
    requires i <= |s| && ElementsEnd(s, i, depth).Some?
    ensures i < |s|
  {
    hide ElementsEnd;
  }

  lemma {:induction false} ObjectSound(s: string, i: nat, depth: nat)
    requires i <= |s| && ObjectEnd(s, i, depth).Some?
    ensures Object(s, i, ObjectEnd(s, i, depth).value, depth)
    decreases |s| - i, 5
  {
    var k := SpaceEnd(s, i);
    hide SpaceEnd;
    hide MembersAt;
    hide Members;
    if !(k < |s| && s[k] == '}') {
      MembersSound(s, k, depth);
    }
  }

  lemma PairParts(s: string, i: nat, depth: nat) returns (a: nat, b: nat, e: nat)
    requires PairAt(s, i, depth).Some?
    ensures var j, m := PairAt(s, i, depth).value.0, PairAt(s, i, depth).value.1;
      && StrAt(s, i) == Some((a, m.key)) && a <= |s| && b == SpaceEnd(s, a) < |s| && s[b] == ':' && m.at == SpaceEnd(s, b + 1)
      && ValueEnd(s, m.at, depth) == Some(e) && e <= |s| && j == SpaceEnd(s, e)
  {
    a := StrAt(s, i).value.0;
    b := SpaceEnd(s, a);
    e := ValueEnd(s, SpaceEnd(s, b + 1), depth).value;
    hide StrAt;
    hide SpaceEnd;
    hide ValueEnd;
  }

  lemma PairMade(s: string, i: nat, a: nat, b: nat, e: nat, j: nat, depth: nat, m: Member)
    requires i < a <= b < m.at < e <= j <= |s| && Str(s, i, a, m.key) && Blank(s, a, b) && s[b] == ':' && Blank(s, b + 1, m.at) && Blank(s, e, j)
    requires Value(s, m.at, e, depth)
    ensures Pair(s, i, j, depth, m)
  {
    hide Str;
    hide Blank;
    hide Value;
  }

  lemma StrEnds(s: string, i: nat)
    ensures StrAt(s, i).Some? ==> i < StrAt(s, i).value.0 <= |s|
  {
    hide StrAt;
  }

  lemma ValueEnds(s: string, i: nat, depth: nat)
    ensures ValueEnd(s, i, depth).Some? ==> i < ValueEnd(s, i, depth).value <= |s|
  {
    hide ValueEnd;
  }

  lemma {:induction false} PairSound(s: string, i: nat, depth: nat)
    requires PairAt(s, i, depth).Some?
    ensures Pair(s, i, PairAt(s, i, depth).value.0, depth, PairAt(s, i, depth).value.1)
    decreases |s| - i, 3
  {
    hide *;
    var j, m := PairAt(s, i, depth).value.0, PairAt(s, i, depth).value.1;
    var a, b, e := PairParts(s, i, depth);
    StrEnds(s, i);
    StrExact(s, i, a, m.key);
    SpaceEndMeans(s, a);
    SpaceEndMeans(s, b + 1);
    ValueEnds(s, m.at, depth);
    ValueSound(s, m.at, depth);
    SpaceEndMeans(s, e);
    PairMade(s, i, a, b, e, j, depth, m);
  }

  lemma MembersNext(s: string, i: nat, depth: nat)
    requires i <= |s|
    ensures MembersAt(s, i, depth) ==
      if i >= |s| then OpenEnd([])
      else if PairAt(s, i, depth).None? then Bad
      else
        var b, m := PairAt(s, i, depth).value.0, PairAt(s, i, depth).value.1;
        if b < |s| && s[b] == ',' then Prepend(m, MembersAt(s, SpaceEnd(s, b + 1), depth))
        else if b < |s| && s[b] == '}' then ClosedAt(b + 1, [m])
        else Bad
  {
    hide PairAt;
    hide SpaceEnd;
  }

  lemma PairEnds(s: string, i: nat, depth: nat)
    ensures PairAt(s, i, depth).Some? ==> i < PairAt(s, i, depth).value.0 <= |s|
  {
    hide PairAt;
  }

  lemma NoMembers(s: string, i: nat, depth: nat)
    requires i >= |s|
    ensures OpenMembers(s, i, depth, [])
  {
  }

  lemma {:induction false} MembersSound(s: string, i: nat, depth: nat)
    requires i <= |s|
    ensures var r := MembersAt(s, i, depth);
      && (r.ClosedAt? ==> Members(s, i, r.end, depth, r.ms))
      && (r.OpenEnd? ==> OpenMembers(s, i, depth, r.ms))
    decreases |s| - i, 4
  {
    hide MembersAt;
    hide PairAt;
    hide Pair;
    hide SpaceEnd;
    hide Members;
    hide OpenMembers;
    hide Blank;
    hide IsSpace;
    MembersNext(s, i, depth);
    if i >= |s| {
      NoMembers(s, i, depth);
    } else if PairAt(s, i, depth).Some? {
      var b, m := PairAt(s, i, depth).value.0, PairAt(s, i, depth).value.1;
      PairEnds(s, i, depth);
      PairSound(s, i, depth);
      if b < |s| && s[b] == ',' {
        SpaceEndMeans(s, b + 1);
        var c := SpaceEnd(s, b + 1);
        MembersSound(s, c, depth);
        var r := MembersAt(s, c, depth);
        if r.ClosedAt? {
          MembersMore(s, i, b, c, r.end, depth, m, r.ms);
        } else if r.OpenEnd? {
          OpenMembersMore(s, i, b, c, depth, m, r.ms);
        }
      } else if b < |s| && s[b] == '}' {
        MembersLast(s, i, b, depth, m);
      }
    }
  }

  lemma MembersLast(s: string, i: nat, b: nat, depth: nat, m: Member)
    requires i < b < |s| && Pair(s, i, b, depth, m) && s[b] == '}'
    ensures Members(s, i, b + 1, depth, [m])
  {
    hide Pair;
  }

  lemma MembersMore(s: string, i: nat, b: nat, c: nat, j: nat, depth: nat, m: Member, ms: seq<Member>)
    requires i < b < |s| && Pair(s, i, b, depth, m) && s[b] == ',' && Blank(s, b + 1, c) && Members(s, c, j, depth, ms)
    ensures Members(s, i, j, depth, [m] + ms)
  {
    MoreMembersFrom(s, b + 1, c, j, depth, ms);
    assert ([m] + ms)[0] == m && ([m] + ms)[1..] == ms;
    hide MoreMembers;
    hide Pair;
  }

  lemma OpenMembersMore(s: string, i: nat, b: nat, c: nat, depth: nat, m: Member, ms: seq<Member>)
    requires i < b < |s| && Pair(s, i, b, depth, m) && s[b] == ',' && Blank(s, b + 1, c) && (c < |s| ==> !IsSpace(s[c]))
    requires OpenMembers(s, c, depth, ms)
    ensures OpenMembers(s, i, depth, [m] + ms)
  {
    assert ([m] + ms)[0] == m && ([m] + ms)[1..] == ms;
    hide Pair;
  }

  lemma MoreMembersFrom(s: string, i: nat, c: nat, j: nat, depth: nat, ms: seq<Member>)
    requires i <= c && Blank(s, i, c) && Members(s, c, j, depth, ms)
    ensures MoreMembers(s, i, j, depth, ms)
  {
    assert c < |s|;
  }

  // ---------------------------------------------------------------------
  // What is in the grammar is read.
  // ---------------------------------------------------------------------

  lemma {:induction false} ValueComplete(s: string, i: nat, j: nat, depth: nat)
    requires Value(s, i, j, depth) && Stop(s, j)
    ensures ValueEnd(s, i, depth) == Some(j)
    decreases |s| - i, 2
  {
    if t: string :| Str(s, i, j, t) {
      StrExact(s, i, j, t);
      hide StrAt;
    } else if Number(s, i, j) {
      NumberComplete(s, i, j);
      NumberStarts(s, i, j);
      hide NumberEnd;
    } else if s[i] == '[' && Array(s, i + 1, j, depth + 1) {
      ArrayComplete(s, i + 1, j, depth + 1);
      hide ArrayEnd;
    } else if s[i] == '{' && Object(s, i + 1, j, depth + 1) {
      ObjectComplete(s, i + 1, j, depth + 1);
      hide ObjectEnd;
    } else {
      LiteralStarts(s, i, j);
    }
    hide Array;
    hide Object;
    hide Number;
    hide Chars;
  }

  lemma NumberStarts(s: string, i: nat, j: nat)
    requires Number(s, i, j)
    ensures i < |s| && (s[i] == '-' || IsDigit(s[i]))
  {
  }

  lemma LiteralStarts(s: string, i: nat, j: nat)
    ensures Literal(s, i, j, "true") ==> s[i] == 't'
    ensures Literal(s, i, j, "false") ==> s[i] == 'f'
    ensures Literal(s, i, j, "null") ==> s[i] == 'n'
  {
    if i < j <= |s| { assert s[i..j][0] == s[i]; }
  }

  lemma ArrayNext(s: string, i: nat, depth: nat)
    requires i <= |s|
    ensures var k := SpaceEnd(s, i);
      ArrayEnd(s, i, depth) == if k < |s| && s[k] == ']' then Some(k + 1) else ElementsEnd(s, k, depth)
  {
    hide SpaceEnd;
    hide ElementsEnd;
  }

  lemma ArrayParts(s: string, i: nat, j: nat, depth: nat) returns (k: nat)
    requires Array(s, i, j, depth)
    ensures i <= k < |s| && Blank(s, i, k) && ((s[k] == ']' && j == k + 1) || Elements(s, k, j, depth))
  {
    k :| i <= k < |s| && Blank(s, i, k) && ((s[k] == ']' && j == k + 1) || Elements(s, k, j, depth));
    hide Elements;
    hide Blank;
  }

  lemma {:induction false} ArrayComplete(s: string, i: nat, j: nat, depth: nat)
    requires i <= |s| && Array(s, i, j, depth)
    ensures ArrayEnd(s, i, depth) == Some(j)
    decreases |s| - i, 4
  {
    hide *;
    var k := ArrayParts(s, i, j, depth);
    if Elements(s, k, j, depth) {
      ElementStarts(s, k, j, depth);
      ElementsComplete(s, k, j, depth);
    } else {
      BracketIsNoSpace();
    }
    BlankEnd(s, i, k);
    ArrayNext(s, i, depth);
  }

  lemma BracketIsNoSpace()
    ensures !IsSpace(']') && !IsSpace('}') && !IsSpace(',') && !IsSpace(':') && !IsSpace('"') && !IsSpace('{')
  {
  }

  lemma ValueStarts(s: string, i: nat, j: nat, depth: nat)
    requires Value(s, i, j, depth)
    ensures i < |s| && !IsSpace(s[i]) && s[i] != ']' && s[i] != '}' && s[i] != ','
  {
    if Number(s, i, j) { NumberStarts(s, i, j); }
    LiteralStarts(s, i, j);
    hide Number;
    hide Literal;
    hide Array;
    hide Object;
    hide Chars;
  }

  lemma ElementsParts(s: string, i: nat, j: nat, depth: nat) returns (a: nat, b: nat)
    requires Elements(s, i, j, depth)
    ensures i < a <= b < |s| && Value(s, i, a, depth) && Blank(s, a, b)
    ensures (s[b] == ']' && j == b + 1) || (s[b] == ',' && MoreElements(s, b + 1, j, depth))
  {
    hide Value;
    hide Blank;
    hide MoreElements;
    a, b :| i < a <= b < |s| && Value(s, i, a, depth) && Blank(s, a, b)
      && ((s[b] == ']' && j == b + 1) || (s[b] == ',' && MoreElements(s, b + 1, j, depth)));
  }

  lemma MoreElementsParts(s: string, i: nat, j: nat, depth: nat) returns (c: nat)
    requires MoreElements(s, i, j, depth)
    ensures i <= c < |s| && Blank(s, i, c) && Elements(s, c, j, depth)
  {
    hide Elements;
    hide Blank;
    c :| i <= c < |s| && Blank(s, i, c) && Elements(s, c, j, depth);
  }

  lemma ElementStarts(s: string, i: nat, j: nat, depth: nat)
    requires Elements(s, i, j, depth)
    ensures i < |s| && !IsSpace(s[i]) && s[i] != ']'
  {
    hide *;
    var a, b := ElementsParts(s, i, j, depth);
    ValueStarts(s, i, a, depth);
  }

  lemma StopAfter(s: string, a: nat, b: nat)
    requires a <= b && Blank(s, a, b) && Stop(s, b)
    ensures Stop(s, a)
  {
  }

  lemma Stops(s: string, b: nat)
    requires b >= |s| || s[b] == ',' || s[b] == ']' || s[b] == '}'
    ensures Stop(s, b)
  {
  }

  lemma {:induction false} ElementsComplete(s: string, i: nat, j: nat, depth: nat)
    requires i <= |s| && Elements(s, i, j, depth)
    ensures ElementsEnd(s, i, depth) == Some(j)
    decreases |s| - i, 3
  {
    hide *;
    var a, b := ElementsParts(s, i, j, depth);
    Stops(s, b);
    BracketIsNoSpace();
    StopAfter(s, a, b);
    ValueComplete(s, i, a, depth);
    BlankEnd(s, a, b);
    ElementsNext(s, i, depth);
    if s[b] == ',' {
      var c := MoreElementsParts(s, b + 1, j, depth);
      ElementStarts(s, c, j, depth);
      BlankEnd(s, b + 1, c);
      ElementsComplete(s, c, j, depth);
    }
  }

  lemma ObjectNext(s: string, i: nat, depth: nat)
    requires i <= |s|
    ensures var k := SpaceEnd(s, i);
      ObjectEnd(s, i, depth) ==
        if k < |s| && s[k] == '}' then Some(k + 1)
        else if MembersAt(s, k, depth).ClosedAt? then Some(MembersAt(s, k, depth).end) else None
  {
    hide SpaceEnd;
    hide MembersAt;
  }

  lemma ObjectParts(s: string, i: nat, j: nat, depth: nat) returns (k: nat, ms: seq<Member>)
    requires Object(s, i, j, depth)
    ensures i <= k < |s| && Blank(s, i, k) && ((s[k] == '}' && j == k + 1) || Members(s, k, j, depth, ms))
  {
    hide Members;
    hide Blank;
    k :| i <= k < |s| && Blank(s, i, k) && ((s[k] == '}' && j == k + 1) || exists ms :: Members(s, k, j, depth, ms));
    ms := [];
    if !(s[k] == '}' && j == k + 1) {
      ms :| Members(s, k, j, depth, ms);
    }
  }

  lemma {:induction false} ObjectComplete(s: string, i: nat, j: nat, depth: nat)
    requires i <= |s| && Object(s, i, j, depth)
    ensures ObjectEnd(s, i, depth) == Some(j)
    decreases |s| - i, 5
  {
    hide *;
    var k, ms := ObjectParts(s, i, j, depth);
    BracketIsNoSpace();
    if Members(s, k, j, depth, ms) {
      MemberStarts(s, k, j, depth, ms);
      MembersComplete(s, k, j, depth, ms);
    }
    BlankEnd(s, i, k);
    ObjectNext(s, i, depth);
  }

  lemma PairPieces(s: string, i: nat, j: nat, depth: nat, m: Member) returns (a: nat, b: nat, e: nat)
    requires Pair(s, i, j, depth, m)
    ensures i < a <= b < m.at < e <= j <= |s| && Str(s, i, a, m.key) && Blank(s, a, b) && s[b] == ':' && Blank(s, b + 1, m.at) && Blank(s, e, j)
    ensures Value(s, m.at, e, depth)
  {
    hide Str;
    hide Blank;
    hide Value;
    a, b, e :| i < a <= b < m.at < e <= j <= |s| && Str(s, i, a, m.key) && Blank(s, a, b) && s[b] == ':'
      && Blank(s, b + 1, m.at) && Blank(s, e, j) && Value(s, m.at, e, depth);
  }

  lemma StrStarts(s: string, i: nat, j: nat, t: string)
    requires Str(s, i, j, t)
    ensures i < |s| && s[i] == '"'
  {
    hide Chars;
  }

  lemma PairStarts(s: string, i: nat, j: nat, depth: nat, m: Member)
    requires Pair(s, i, j, depth, m)
    ensures i < |s| && s[i] == '"'
  {
    hide *;
    var a, b, e := PairPieces(s, i, j, depth, m);
    StrStarts(s, i, a, m.key);
  }

  lemma MembersParts(s: string, i: nat, j: nat, depth: nat, ms: seq<Member>) returns (b: nat)
    requires Members(s, i, j, depth, ms)
    ensures ms != [] && i < b < |s| && Pair(s, i, b, depth, ms[0])
    ensures (s[b] == '}' && j == b + 1 && |ms| == 1) || (s[b] == ',' && MoreMembers(s, b + 1, j, depth, ms[1..]))
  {
    hide Pair;
    hide MoreMembers;
    b :| i < b < |s| && Pair(s, i, b, depth, ms[0])
      && ((s[b] == '}' && j == b + 1 && |ms| == 1) || (s[b] == ',' && MoreMembers(s, b + 1, j, depth, ms[1..])));
  }

  lemma MoreMembersParts(s: string, i: nat, j: nat, depth: nat, ms: seq<Member>) returns (c: nat)
    requires MoreMembers(s, i, j, depth, ms)
    ensures i <= c < |s| && Blank(s, i, c) && Members(s, c, j, depth, ms)
  {
    hide Members;
    hide Blank;
    c :| i <= c < |s| && Blank(s, i, c) && Members(s, c, j, depth, ms);
  }

  lemma OpenMembersParts(s: string, i: nat, depth: nat, ms: seq<Member>) returns (b: nat, c: nat)
    requires i < |s| && OpenMembers(s, i, depth, ms)
    ensures ms != [] && i < b < c <= |s| && Pair(s, i, b, depth, ms[0]) && s[b] == ',' && Blank(s, b + 1, c)
    ensures (c < |s| ==> !IsSpace(s[c])) && OpenMembers(s, c, depth, ms[1..])
  {
    hide Pair;
    hide Blank;
    hide IsSpace;
    b, c :| i < b < c <= |s| && Pair(s, i, b, depth, ms[0]) && s[b] == ',' && Blank(s, b + 1, c)
      && (c < |s| ==> !IsSpace(s[c])) && OpenMembers(s, c, depth, ms[1..]);
  }

  lemma MemberStarts(s: string, i: nat, j: nat, depth: nat, ms: seq<Member>)
    requires Members(s, i, j, depth, ms)
    ensures i < |s| && s[i] == '"'
  {
    hide *;
    var b := MembersParts(s, i, j, depth, ms);
    PairStarts(s, i, b, depth, ms[0]);
  }

  lemma PairNext(s: string, i: nat, a: nat, b: nat, e: nat, depth: nat, m: Member)
    requires StrAt(s, i) == Some((a, m.key)) && a <= |s| && SpaceEnd(s, a) == b < |s| && s[b] == ':' && SpaceEnd(s, b + 1) == m.at
    requires ValueEnd(s, m.at, depth) == Some(e) && e <= |s|
    ensures PairAt(s, i, depth) == Some((SpaceEnd(s, e), m))
  {
    hide StrAt;
    hide SpaceEnd;
    hide ValueEnd;
  }

  lemma {:induction false} PairComplete(s: string, i: nat, j: nat, depth: nat, m: Member)
    requires Pair(s, i, j, depth, m) && (j < |s| ==> !IsSpace(s[j])) && Stop(s, j)
    ensures PairAt(s, i, depth) == Some((j, m))
    decreases |s| - i, 3
  {
    hide *;
    var a, b, e := PairPieces(s, i, j, depth, m);
    BracketIsNoSpace();
    StrExact(s, i, a, m.key);
    BlankEnd(s, a, b);
    ValueStarts(s, m.at, e, depth);
    BlankEnd(s, b + 1, m.at);
    StopAfter(s, e, j);
    ValueComplete(s, m.at, e, depth);
    BlankEnd(s, e, j);
    PairNext(s, i, a, b, e, depth, m);
  }

  lemma PrependMeans(m: Member, ms: seq<Member>, j: nat)
    ensures Prepend(m, ClosedAt(j, ms)) == ClosedAt(j, [m] + ms) && Prepend(m, OpenEnd(ms)) == OpenEnd([m] + ms)
  {
  }

  lemma {:induction false} MembersComplete(s: string, i: nat, j: nat, depth: nat, ms: seq<Member>)
    requires i <= |s| && Members(s, i, j, depth, ms)
    ensures MembersAt(s, i, depth) == ClosedAt(j, ms)
    decreases |s| - i, 4
  {
    hide *;
    var b := MembersParts(s, i, j, depth, ms);
    Stops(s, b);
    BracketIsNoSpace();
    PairComplete(s, i, b, depth, ms[0]);
    MembersNext(s, i, depth);
    assert ms == [ms[0]] + ms[1..];
    if s[b] == ',' {
      var c := MoreMembersParts(s, b + 1, j, depth, ms[1..]);
      MemberStarts(s, c, j, depth, ms[1..]);
      BlankEnd(s, b + 1, c);
      MembersComplete(s, c, j, depth, ms[1..]);
      PrependMeans(ms[0], ms[1..], j);
    }
  }

  lemma OpenAtEnd(s: string, i: nat, depth: nat, ms: seq<Member>)
    requires i >= |s| && OpenMembers(s, i, depth, ms)
    ensures ms == []
  {
  }

  lemma {:induction false} OpenMembersComplete(s: string, i: nat, depth: nat, ms: seq<Member>)
    requires i <= |s| && OpenMembers(s, i, depth, ms)
    ensures MembersAt(s, i, depth) == OpenEnd(ms)
    decreases |s| - i
  {
    hide *;
    MembersNext(s, i, depth);
    if i >= |s| {
      OpenAtEnd(s, i, depth, ms);
    } else {
      var b, c := OpenMembersParts(s, i, depth, ms);
      Stops(s, b);
      BracketIsNoSpace();
      PairComplete(s, i, b, depth, ms[0]);
      BlankEnd(s, b + 1, c);
      OpenMembersComplete(s, c, depth, ms[1..]);
      PrependMeans(ms[0], ms[1..], 0);
      assert ms == [ms[0]] + ms[1..];
    }
  }

  // ---------------------------------------------------------------------
  // Whole texts.
  // ---------------------------------------------------------------------

  /** The members of a text that is accepted as an object. */
  function ReadMembers(s: string): Option<seq<Member>> {
    var a := SpaceEnd(s, 0);
    if a >= |s| || s[a] != '{' then None
    else
      var b := SpaceEnd(s, a + 1);
      if b < |s| && s[b] == '}' then
        if SpaceEnd(s, b + 1) == |s| then Some([]) else None
      else
        match MembersAt(s, b, 0)
        case ClosedAt(end, ms) => if SpaceEnd(s, end) == |s| then Some(ms) else None
        case OpenEnd(ms) => Some(ms)
        case Bad => None
  }

  /** Exactly the closed objects of the grammar and the texts that break off after a brace or a comma are accepted. */
  lemma ReadMembersExact(s: string, ms: seq<Member>)
    ensures ReadMembers(s) == Some(ms) <==> Closed(s, ms) || Unclosed(s, ms)
  {
    if ReadMembers(s) == Some(ms) {
      AcceptedIsGrammatical(s, ms);
    }
    if Closed(s, ms) {
      ClosedIsAccepted(s, ms);
    }
    if Unclosed(s, ms) {
      UnclosedIsAccepted(s, ms);
    }
  }

  lemma AcceptedIsGrammatical(s: string, ms: seq<Member>)
    requires ReadMembers(s) == Some(ms)
    ensures Closed(s, ms) || Unclosed(s, ms)
  {
    hide SpaceEnd;
    hide MembersAt;
    hide Members;
    hide OpenMembers;
    hide Blank;
    var a := SpaceEnd(s, 0);
    SpaceEndMeans(s, 0);
    var b := SpaceEnd(s, a + 1);
    SpaceEndMeans(s, a + 1);
    MembersSound(s, b, 0);
    if b < |s| && s[b] == '}' {
      SpaceEndMeans(s, b + 1);
    } else if MembersAt(s, b, 0).ClosedAt? {
      SpaceEndMeans(s, MembersAt(s, b, 0).end);
    }
  }

  lemma ClosedParts(s: string, ms: seq<Member>) returns (a: nat, b: nat, e: nat)
    requires Closed(s, ms)
    ensures a < b < e <= |s| && Blank(s, 0, a) && s[a] == '{' && Blank(s, a + 1, b) && Blank(s, e, |s|)
    ensures if s[b] == '}' then e == b + 1 && ms == [] else Members(s, b, e, 0, ms)
  {
    hide Blank;
    hide Members;
    a, b, e :| a < b < e <= |s| && Blank(s, 0, a) && s[a] == '{' && Blank(s, a + 1, b) && Blank(s, e, |s|)
      && if s[b] == '}' then e == b + 1 && ms == [] else Members(s, b, e, 0, ms);
  }

  lemma ClosedIsAccepted(s: string, ms: seq<Member>)
    requires Closed(s, ms)
    ensures ReadMembers(s) == Some(ms)
  {
    hide SpaceEnd;
    hide MembersAt;
    hide Members;
    hide Blank;
    hide Closed;
    hide IsSpace;
    var a, b, e := ClosedParts(s, ms);
    BracketIsNoSpace();
    BlankEnd(s, 0, a);
    BlankEnd(s, e, |s|);
    if s[b] != '}' {
      MemberStarts(s, b, e, 0, ms);
      MembersComplete(s, b, e, 0, ms);
    }
    BlankEnd(s, a + 1, b);
  }

  lemma UnclosedParts(s: string, ms: seq<Member>) returns (a: nat, b: nat)
    requires Unclosed(s, ms)
    ensures a < b <= |s| && Blank(s, 0, a) && s[a] == '{' && Blank(s, a + 1, b) && (b < |s| ==> !IsSpace(s[b])) && OpenMembers(s, b, 0, ms)
  {
    hide Blank;
    hide OpenMembers;
    hide IsSpace;
    a, b :| a < b <= |s| && Blank(s, 0, a) && s[a] == '{' && Blank(s, a + 1, b) && (b < |s| ==> !IsSpace(s[b])) && OpenMembers(s, b, 0, ms);
  }

  lemma UnclosedIsAccepted(s: string, ms: seq<Member>)
    requires Unclosed(s, ms)
    ensures ReadMembers(s) == Some(ms)
  {
    hide SpaceEnd;
    hide MembersAt;
    hide OpenMembers;
    hide Blank;
    hide Unclosed;
    hide IsSpace;
    var a, b := UnclosedParts(s, ms);
    BracketIsNoSpace();
    BlankEnd(s, 0, a);
    BlankEnd(s, a + 1, b);
    OpenMembersComplete(s, b, 0, ms);
    if b < |s| {
      OpenStarts(s, b, ms);
    }
  }

  lemma OpenStarts(s: string, i: nat, ms: seq<Member>)
    requires i < |s| && OpenMembers(s, i, 0, ms)
    ensures s[i] == '"'
  {
    hide *;
    var b, c := OpenMembersParts(s, i, 0, ms);
    PairStarts(s, i, b, 0, ms[0]);
  }

  /** The shortest text that is accepted and is no object: an opening brace alone. */
  lemma LoneBraceIsAccepted(ms: seq<Member>)
    ensures ReadMembers("{") == Some([]) && !Closed("{", ms)
  {
    var s := "{";
    assert SpaceEnd(s, 0) == 0 && SpaceEnd(s, 1) == 1;
    assert MembersAt(s, 1, 0) == OpenEnd([]);
  }
}
