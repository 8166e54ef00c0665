/**
  Reading members of signed claims: a cursor over the text, strings decoded as it
  goes or only passed over, nested values skipped, and one top-level member found.
 */
module JsonClaims {
  import opened Records
  import opened Vectors
  import opened JsonGrammar
  import opened JsonScan
  import Utf8

  method SkipWhitespace(s: string, start: nat) returns (pos: nat)
    requires start <= |s|
    ensures pos == SpaceEnd(s, start) && start <= pos <= |s| && (pos < |s| ==> !IsSpace(s[pos]))
  {
    pos := start;
    while pos < |s| && IsSpace(s[pos])
      invariant start <= pos <= |s| && SpaceEnd(s, pos) == SpaceEnd(s, start)
    {
      pos := pos + 1;
    }
  }

  method ReadHex4(s: string, pos: nat) returns (unit: Option<nat>)
    requires pos <= |s|
    ensures unit == Hex4(s, pos)
  {
    if |s| - pos < 4 { return None; }
    var value := 0;
    for i := 0 to 4
      invariant HexDigits(s, pos, i) == Some(value)
    {
      var digit := HexValue(s[pos + i]);
      if digit.None? {
        BadDigit(s, pos, i + 1, 4);
        return None;
      }
      value := value * 16 + digit.value;
    }
    return Some(value);
  }

  lemma {:induction false} BadDigit(s: string, i: nat, n: nat, m: nat)
    requires n <= m && i + m <= |s| && HexDigits(s, i, n) == None
    ensures HexDigits(s, i, m) == None
    decreases m
  {
    if n < m { BadDigit(s, i, n, m - 1); }
  }

  /** One `\u` escape, or two that make a surrogate pair. */
  method ParseHexEscape(s: string, at: nat, output: Option<string>) returns (ok: bool, pos: nat, out: Option<string>)
    requires at + 1 < |s| && s[at] == '\\' && s[at + 1] == 'u'
    ensures ok <==> HexAt(s, at).Some?
    ensures ok ==> pos == HexAt(s, at).value.0 && out == (if output.None? then None else Some(output.value + HexAt(s, at).value.1))
  {
    pos, out := at + 2, output;
    var unit := ReadHex4(s, pos);
    if unit.None? { return false, pos, out; }
    pos := pos + 4;
    var cp := unit.value;
    if 0xd800 <= cp <= 0xdbff {
      if |s| - pos < 6 || s[pos] != '\\' || s[pos + 1] != 'u' { return false, pos, out; }
      pos := pos + 2;
      var low := ReadHex4(s, pos);
      if low.None? || low.value < 0xdc00 || low.value > 0xdfff { return false, pos, out; }
      pos := pos + 4;
      cp := 0x10000 + (cp - 0xd800) * 1024 + (low.value - 0xdc00);
    }
    ok, out := Utf8.AppendUtf8(cp, output);
  }

  /** A string, decoded if there is somewhere to decode it to; with or without, the same is accepted and the cursor ends in the same place. */
  method ParseString(s: string, start: nat, decode: bool) returns (ok: bool, pos: nat, value: string)
    requires start <= |s|
    ensures ok <==> StrAt(s, start).Some?
    ensures ok ==> pos == StrAt(s, start).value.0 && start < pos <= |s| && (decode ==> value == StrAt(s, start).value.1)
  {
    ok, pos, value := false, start, "";
    if start >= |s| || s[start] != '"' { return; }
    pos := start + 1;
    while pos < |s|
      invariant start < pos <= |s|
      invariant CharsAt(s, start + 1).Some? <==> CharsAt(s, pos).Some?
      invariant CharsAt(s, pos).Some? ==>
        && CharsAt(s, start + 1).value.0 == CharsAt(s, pos).value.0
        && (decode ==> CharsAt(s, start + 1).value.1 == value + CharsAt(s, pos).value.1)
    {
      if s[pos] == '"' {
        assert value + "" == value;
        return true, pos + 1, value;
      }
      var good, next, u := ParseItem(s, pos, decode);
      if !good { return; }
      if decode && CharsAt(s, next).Some? {
        assert value + (u + CharsAt(s, next).value.1) == (value + u) + CharsAt(s, next).value.1;
      }
      hide ItemAt;
      pos := next;
      value := value + u;
    }
  }

  /** One character of a string. */
  method ParseItem(s: string, at: nat, decode: bool) returns (ok: bool, next: nat, u: string)
    requires at < |s| && s[at] != '"'
    ensures ok <==> ItemAt(s, at).Some?
    ensures ok ==> next == ItemAt(s, at).value.0 && at < next <= |s| && (decode ==> u == ItemAt(s, at).value.1)
  {
    ok, next, u := false, at + 1, "";
    if s[at] < ' ' { return; }
    if s[at] != '\\' { return true, next, if decode then [s[at]] else ""; }
    if next >= |s| { return; }
    var escape := s[next];
    if escape == 'u' {
      var good, pos, out := ParseHexEscape(s, at, if decode then Some("") else None);
      if good && decode { assert "" + HexAt(s, at).value.1 == HexAt(s, at).value.1; }
      return good, pos, if out.Some? then out.value else "";
    }
    var c := Unescaped(escape);
    if c.None? { return; }
    return true, at + 2, if decode then [c.value] else "";
  }

  method SkipDigits(s: string, start: nat) returns (pos: nat)
    requires start <= |s|
    ensures pos == DigitsEnd(s, start)
  {
    pos := start;
    while pos < |s| && IsDigit(s[pos])
      invariant start <= pos <= |s| && DigitsEnd(s, pos) == DigitsEnd(s, start)
    {
      pos := pos + 1;
    }
  }

  method SkipInt(s: string, pos: nat) returns (r: Option<nat>)
    ensures r == IntEnd(s, pos)
  {
    if pos >= |s| { return None; }
    if s[pos] == '0' { return Some(pos + 1); }
    if !('1' <= s[pos] <= '9') { return None; }
    var end := SkipDigits(s, pos);
    return Some(end);
  }

  method SkipFraction(s: string, pos: nat) returns (r: Option<nat>)
    requires pos <= |s|
    ensures r == FracEnd(s, pos)
  {
    if pos >= |s| || s[pos] != '.' { return Some(pos); }
    var end := SkipDigits(s, pos + 1);
    return if end == pos + 1 then None else Some(end);
  }

  method SkipExponent(s: string, pos: nat) returns (r: Option<nat>)
    requires pos <= |s|
    ensures r == ExpEnd(s, pos)
  {
    if pos >= |s| || !(s[pos] == 'e' || s[pos] == 'E') { return Some(pos); }
    var start := pos + 1;
    if start < |s| && (s[start] == '+' || s[start] == '-') { start := start + 1; }
    var end := SkipDigits(s, start);
    return if end == start then None else Some(end);
  }

  method SkipNumber(s: string, start: nat) returns (r: Option<nat>)
    requires start < |s|
    ensures r == NumberEnd(s, start)
  {
    var pos := start;
    if s[pos] == '-' { pos := pos + 1; }
    var a := SkipInt(s, pos);
    if a.None? { return None; }
    var b := SkipFraction(s, a.value);
    if b.None? { return None; }
    r := SkipExponent(s, b.value);
  }

  method ConsumeLiteral(s: string, start: nat, word: string) returns (r: Option<nat>)
    requires start <= |s|
    ensures r == LiteralEnd(s, start, word)
  {
    if start + |word| > |s| || s[start..start + |word|] != word { return None; }
    return Some(start + |word|);
  }

  /** Passes over a value and the white space before it. */
  method SkipValue(s: string, start: nat, depth: nat) returns (r: Option<nat>)
    requires start <= |s|
    ensures r == ValueEnd(s, SpaceEnd(s, start), depth)
    ensures r.Some? ==> start < r.value <= |s|
    decreases |s| - start, 3
  {
    var pos := SkipWhitespace(s, start);
    ValueEnds(s, pos, depth);
    ValueNext(s, pos, depth);
    hide *;
    if depth > MAX_DEPTH { return None; }
    if pos >= |s| { return None; }
    var c := s[pos];
    if c == '"' {
      var ok, end, t := ParseString(s, pos, false);
      return if ok then Some(end) else None;
    } else if c == '{' {
      r := SkipObject(s, pos, depth);
    } else if c == '[' {
      r := SkipArray(s, pos, depth);
    } else if c == 't' {
      r := ConsumeLiteral(s, pos, "true");
    } else if c == 'f' {
      r := ConsumeLiteral(s, pos, "false");
    } else if c == 'n' {
      r := ConsumeLiteral(s, pos, "null");
    } else {
      r := SkipNumber(s, pos);
    }
  }

  lemma ValueNext(s: string, i: nat, depth: nat)
    ensures ValueEnd(s, i, depth) ==
      if depth > MAX_DEPTH || i >= |s| then None
      else if s[i] == '"' then (if StrAt(s, i).None? then None else Some(StrAt(s, i).value.0))
      else if s[i] == '{' then ObjectEnd(s, i + 1, depth + 1)
      else if s[i] == '[' then ArrayEnd(s, i + 1, depth + 1)
      else if s[i] == 't' then LiteralEnd(s, i, "true")
      else if s[i] == 'f' then LiteralEnd(s, i, "false")
      else if s[i] == 'n' then LiteralEnd(s, i, "null")
      else NumberEnd(s, i)
  {
    hide StrAt;
    hide ObjectEnd;
    hide ArrayEnd;
    hide NumberEnd;
  }

  method SkipArray(s: string, start: nat, depth: nat) returns (r: Option<nat>)
    requires start < |s| && s[start] == '['
    ensures r == if depth > MAX_DEPTH then None else ArrayEnd(s, start + 1, depth + 1)
    decreases |s| - start, 2
  {
    hide *;
    if depth > MAX_DEPTH { return None; }
    ArrayNext(s, start + 1, depth + 1);
    var pos := SkipWhitespace(s, start + 1);
    if pos < |s| && s[pos] == ']' { return Some(pos + 1); }
    ghost var first := pos;
    SpaceEndAgain(s, pos);
    while pos < |s|
      invariant start < pos <= |s| && pos == SpaceEnd(s, pos)
      invariant ElementsEnd(s, first, depth + 1) == ElementsEnd(s, pos, depth + 1)
      decreases |s| - pos
    {
      var end := SkipValue(s, pos, depth + 1);
      if end.None? {
        NoElement(s, pos, depth + 1);
        return None;
      }
      ElementsNext(s, pos, depth + 1);
      pos := SkipWhitespace(s, end.value);
      if pos < |s| && s[pos] == ',' {
        pos := SkipWhitespace(s, pos + 1);
        SpaceEndAgain(s, pos);
        continue;
      }
      if pos < |s| && s[pos] == ']' { return Some(pos + 1); }
      return None;
    }
    ValueNext(s, pos, depth + 1);
    NoElement(s, pos, depth + 1);
    return None;
  }

  lemma NoElement(s: string, i: nat, depth: nat)
    requires i <= |s| && ValueEnd(s, i, depth).None?
    ensures ElementsEnd(s, i, depth) == None
  {
    hide ValueEnd;
  }

  lemma SpaceEndAgain(s: string, i: nat)
    requires i <= |s| && (i < |s| ==> !IsSpace(s[i]))
    ensures SpaceEnd(s, i) == i
  {
  }

  /** A member's name, colon and value, with the white space after it. */
  method ParsePair(s: string, start: nat, depth: nat, decode: bool) returns (ok: bool, pos: nat, key: string, at: nat)
    requires start <= |s|
    ensures ok <==> PairAt(s, start, depth).Some?
    ensures ok ==> start < pos <= |s| && pos == PairAt(s, start, depth).value.0 && at == PairAt(s, start, depth).value.1.at
    ensures ok && decode ==> key == PairAt(s, start, depth).value.1.key
    decreases |s| - start, 4
  {
    hide *;
    PairUnfolds(s, start, depth);
    pos, at := start, 0;
    var good, end, name := ParseString(s, start, decode);
    key := name;
    if !good { return false, pos, key, at; }
    pos := SkipWhitespace(s, end);
    if pos >= |s| || s[pos] != ':' { return false, pos, key, at; }
    at := SkipWhitespace(s, pos + 1);
    SpaceEndMeans(s, pos + 1);
    SpaceEndAgain(s, at);
    var value := SkipValue(s, at, depth);
    if value.None? { return false, pos, key, at; }
    pos := SkipWhitespace(s, value.value);
    ok := true;
  }

  lemma PairUnfolds(s: string, i: nat, depth: nat)
    ensures PairAt(s, i, depth) ==
      (if StrAt(s, i).None? then None
       else
         var b := SpaceEnd(s, StrAt(s, i).value.0);
         if b >= |s| || s[b] != ':' then None
         else if ValueEnd(s, SpaceEnd(s, b + 1), depth).None? then None
         else Some((SpaceEnd(s, ValueEnd(s, SpaceEnd(s, b + 1), depth).value), Member(StrAt(s, i).value.1, SpaceEnd(s, b + 1)))))
  {
    hide StrAt;
    hide SpaceEnd;
    hide ValueEnd;
  }

  method SkipObject(s: string, start: nat, depth: nat) returns (r: Option<nat>)
    requires start < |s| && s[start] == '{'
    ensures r == if depth > MAX_DEPTH then None else ObjectEnd(s, start + 1, depth + 1)
    decreases |s| - start, 2
  {
    hide *;
    if depth > MAX_DEPTH { return None; }
    ObjectNext(s, start + 1, depth + 1);
    var pos := SkipWhitespace(s, start + 1);
    if pos < |s| && s[pos] == '}' { return Some(pos + 1); }
    ghost var first := pos;
    SameCloseSelf(MembersAt(s, first, depth + 1));
    while pos < |s|
      invariant start < pos <= |s|
      invariant SameClose(MembersAt(s, first, depth + 1), MembersAt(s, pos, depth + 1))
      decreases |s| - pos
    {
      MembersNext(s, pos, depth + 1);
      var ok, end, key, at := ParsePair(s, pos, depth + 1, false);
      if !ok {
        SameCloseMeans(MembersAt(s, first, depth + 1), MembersAt(s, pos, depth + 1));
        return None;
      }
      if end < |s| && s[end] == ',' {
        var next := SkipWhitespace(s, end + 1);
        SameCloseOn(MembersAt(s, first, depth + 1), PairAt(s, pos, depth + 1).value.1, MembersAt(s, next, depth + 1));
        pos := next;
        continue;
      }
      SameCloseMeans(MembersAt(s, first, depth + 1), MembersAt(s, pos, depth + 1));
      if end < |s| && s[end] == '}' { return Some(end + 1); }
      return None;
    }
    MembersNext(s, pos, depth + 1);
    SameCloseMeans(MembersAt(s, first, depth + 1), MembersAt(s, pos, depth + 1));
    return None;
  }

  /** Both are closed, and in the same place, or neither is. */
  predicate SameClose(a: Scan, b: Scan) {
    (a.ClosedAt? <==> b.ClosedAt?) && (a.ClosedAt? ==> a.end == b.end)
  }

  lemma SameCloseSelf(a: Scan)
    ensures SameClose(a, a)
  {
  }

  lemma SameCloseMeans(a: Scan, b: Scan)
    requires SameClose(a, b)
    ensures (a.ClosedAt? <==> b.ClosedAt?) && (a.ClosedAt? ==> a.end == b.end)
  {
  }

  lemma SameCloseOn(a: Scan, m: Member, b: Scan)
    requires SameClose(a, Prepend(m, b))
    ensures SameClose(a, b)
  {
  }

  // ---------------------------------------------------------------------
  // Finding a member.
  // ---------------------------------------------------------------------

  datatype Location = Missing | Valid(at: nat) | Invalid

  function Occurrences(ms: seq<Member>, key: string): nat {
    if ms == [] then 0 else Occurrences(ms[..|ms| - 1], key) + if ms[|ms| - 1].key == key then 1 else 0
  }

  /** Where the last member with the key has its value. */
  function LastAt(ms: seq<Member>, key: string): nat {
    if ms == [] then 0 else if ms[|ms| - 1].key == key then ms[|ms| - 1].at else LastAt(ms[..|ms| - 1], key)
  }

  /** No such member, the one there is, or more than one. */
  function Classified(ms: seq<Member>, key: string): Location {
    if Occurrences(ms, key) == 0 then Missing
    else if Occurrences(ms, key) == 1 then Valid(LastAt(ms, key))
    else Invalid
  }

  function Find(s: string, key: string): Location {
    if ReadMembers(s).None? then Invalid else Classified(ReadMembers(s).value, key)
  }

  lemma OccurrencesMore(ms: seq<Member>, m: Member, key: string)
    ensures Occurrences(ms + [m], key) == Occurrences(ms, key) + if m.key == key then 1 else 0
    ensures LastAt(ms + [m], key) == if m.key == key then m.at else LastAt(ms, key)
  {
    assert (ms + [m])[..|ms|] == ms;
  }

  lemma {:induction false} OccurrencesGrow(a: seq<Member>, b: seq<Member>, key: string)
    ensures Occurrences(a + b, key) >= Occurrences(a, key)
    decreases |b|
  {
    if b == [] {
      assert a + b == a;
    } else {
      OccurrencesGrow(a, b[..|b| - 1], key);
      assert (a + b)[..|a + b| - 1] == a + b[..|b| - 1];
    }
  }

  function PrependAll(seen: seq<Member>, r: Scan): Scan {
    match r
    case ClosedAt(end, ms) => ClosedAt(end, seen + ms)
    case OpenEnd(ms) => OpenEnd(seen + ms)
    case Bad => Bad
  }

  lemma PrependAllMore(seen: seq<Member>, m: Member, r: Scan)
    ensures PrependAll(seen, Prepend(m, r)) == PrependAll(seen + [m], r)
  {
    if !r.Bad? { assert seen + ([m] + r.ms) == (seen + [m]) + r.ms; }
  }

  /** What the text is found to be once its members are read up to a scan's end. */
  function Outcome(s: string, r: Scan, key: string): Location {
    match r
    case ClosedAt(end, ms) => if end <= |s| && SpaceEnd(s, end) == |s| then Classified(ms, key) else Invalid
    case OpenEnd(ms) => Classified(ms, key)
    case Bad => Invalid
  }

  lemma FindUnfolds(s: string, key: string)
    ensures var a := SpaceEnd(s, 0);
      Find(s, key) ==
        if a >= |s| || s[a] != '{' then Invalid
        else if SpaceEnd(s, a + 1) < |s| && s[SpaceEnd(s, a + 1)] == '}' then
          (if SpaceEnd(s, SpaceEnd(s, a + 1) + 1) == |s| then Missing else Invalid)
        else Outcome(s, MembersAt(s, SpaceEnd(s, a + 1), 0), key)
  {
    hide SpaceEnd;
    hide MembersAt;
    assert Occurrences([], key) == 0;
  }

  lemma TwiceIsInvalid(s: string, seen: seq<Member>, r: Scan, key: string)
    requires Occurrences(seen, key) > 1
    ensures Outcome(s, PrependAll(seen, r), key) == Invalid
  {
    if !r.Bad? { OccurrencesGrow(seen, r.ms, key); }
    hide Occurrences;
    hide SpaceEnd;
  }

  /** How far the search has come: the members seen, and the one with the key among them. */
  ghost predicate Searched(s: string, first: nat, pos: nat, seen: seq<Member>, key: string, found: bool, at: nat) {
    && first <= |s| && pos <= |s|
    && MembersAt(s, first, 0) == PrependAll(seen, MembersAt(s, pos, 0))
    && Occurrences(seen, key) == (if found then 1 else 0) && (found ==> at == LastAt(seen, key))
  }

  lemma SearchStarts(s: string, first: nat, key: string)
    requires first <= |s|
    ensures Searched(s, first, first, [], key, false, 0)
  {
    hide MembersAt;
    var r := MembersAt(s, first, 0);
    if !r.Bad? { assert [] + r.ms == r.ms; }
  }

  lemma SearchGoesOn(s: string, first: nat, pos: nat, seen: seq<Member>, key: string, found: bool, at: nat, m: Member, next: nat)
    requires Searched(s, first, pos, seen, key, found, at) && next <= |s| && MembersAt(s, pos, 0) == Prepend(m, MembersAt(s, next, 0))
    requires !(found && m.key == key)
    ensures Searched(s, first, next, seen + [m], key, found || m.key == key, if m.key == key then m.at else at)
  {
    hide MembersAt;
    hide Occurrences;
    hide LastAt;
    PrependAllMore(seen, m, MembersAt(s, next, 0));
    OccurrencesMore(seen, m, key);
  }

  lemma SearchRepeats(s: string, first: nat, pos: nat, seen: seq<Member>, key: string, at: nat, m: Member, rest: Scan)
    requires Searched(s, first, pos, seen, key, true, at) && m.key == key
    requires MembersAt(s, pos, 0) == Bad || MembersAt(s, pos, 0) == Prepend(m, rest) || exists end: nat :: MembersAt(s, pos, 0) == ClosedAt(end, [m])
    ensures Outcome(s, MembersAt(s, first, 0), key) == Invalid
  {
    hide MembersAt;
    hide Occurrences;
    hide LastAt;
    OccurrencesMore(seen, m, key);
    if MembersAt(s, pos, 0) == Prepend(m, rest) {
      PrependAllMore(seen, m, rest);
      TwiceIsInvalid(s, seen + [m], rest, key);
    } else if end: nat :| MembersAt(s, pos, 0) == ClosedAt(end, [m]) {
      TwiceIsInvalid(s, seen + [m], ClosedAt(end, []), key);
      assert seen + [m] + [] == seen + [m];
    }
  }

  lemma SearchCloses(s: string, first: nat, pos: nat, seen: seq<Member>, key: string, found: bool, at: nat, m: Member, end: nat)
    requires Searched(s, first, pos, seen, key, found, at) && MembersAt(s, pos, 0) == ClosedAt(end, [m]) && end <= |s|
    requires !(found && m.key == key)
    ensures Outcome(s, MembersAt(s, first, 0), key) ==
      if SpaceEnd(s, end) != |s| then Invalid
      else if m.key == key then Valid(m.at) else if found then Valid(at) else Missing
  {
    hide MembersAt;
    hide Occurrences;
    hide LastAt;
    hide SpaceEnd;
    OccurrencesMore(seen, m, key);
  }

  lemma SearchBreaksOff(s: string, first: nat, pos: nat, seen: seq<Member>, key: string, found: bool, at: nat)
    requires Searched(s, first, pos, seen, key, found, at)
    ensures MembersAt(s, pos, 0) == OpenEnd([]) ==> Outcome(s, MembersAt(s, first, 0), key) == if found then Valid(at) else Missing
    ensures MembersAt(s, pos, 0) == Bad ==> Outcome(s, MembersAt(s, first, 0), key) == Invalid
  {
    hide MembersAt;
    hide Occurrences;
    hide LastAt;
    assert seen + [] == seen;
  }

  /** The one top-level member with the key. */
  method FindMember(s: string, key: string) returns (r: Location)
    ensures r == Find(s, key)
  {
    hide *;
    FindUnfolds(s, key);
    var pos := SkipWhitespace(s, 0);
    if pos >= |s| || s[pos] != '{' { return Invalid; }
    pos := SkipWhitespace(s, pos + 1);
    if pos < |s| && s[pos] == '}' {
      pos := SkipWhitespace(s, pos + 1);
      return if pos != |s| then Invalid else Missing;
    }
    r := SearchMembers(s, pos, key);
  }

  method SearchMembers(s: string, first: nat, key: string) returns (r: Location)
    requires first <= |s|
    ensures r == Outcome(s, MembersAt(s, first, 0), key)
  {
    hide *;
    var pos, found, at := first, false, 0;
    ghost var seen: seq<Member> := [];
    SearchStarts(s, first, key);
    while pos < |s|
      invariant first <= pos <= |s| && Searched(s, first, pos, seen, key, found, at)
      decreases |s| - pos
    {
      MembersNext(s, pos, 0);
      SearchBreaksOff(s, first, pos, seen, key, found, at);
      var ok, end, name, valueAt := ParsePair(s, pos, 0, true);
      if !ok { return Invalid; }
      ghost var m := PairAt(s, pos, 0).value.1;
      if name == key && found {
        if end < |s| { SpaceEndMeans(s, end + 1); }
        SearchRepeats(s, first, pos, seen, key, at, m, if end < |s| && s[end] == ',' then MembersAt(s, SpaceEnd(s, end + 1), 0) else Bad);
        return Invalid;
      }
      if end < |s| && s[end] == ',' {
        var next := SkipWhitespace(s, end + 1);
        SearchGoesOn(s, first, pos, seen, key, found, at, m, next);
        seen := seen + [m];
        if name == key { found, at := true, valueAt; }
        pos := next;
        continue;
      }
      if end < |s| && s[end] == '}' {
        SearchCloses(s, first, pos, seen, key, found, at, m, end + 1);
        if name == key { found, at := true, valueAt; }
        pos := SkipWhitespace(s, end + 1);
        if pos != |s| { return Invalid; }
        return if found then Valid(at) else Missing;
      }
      return Invalid;
    }
    MembersNext(s, pos, 0);
    SearchBreaksOff(s, first, pos, seen, key, found, at);
    return if found then Valid(at) else Missing;
  }

  // ---------------------------------------------------------------------
  // What is found.
  // ---------------------------------------------------------------------

  /** Of a closed object within the depth limit the answer is decided by the number of members with the key. */
  lemma ClosedDecides(s: string, ms: seq<Member>, key: string)
    requires Closed(s, ms)
    ensures Find(s, key) == Classified(ms, key)
  {
    hide *;
    ReadMembersExact(s, ms);
    FindMeans(s, key);
  }

  lemma FindMeans(s: string, key: string)
    ensures Find(s, key) == if ReadMembers(s).None? then Invalid else Classified(ReadMembers(s).value, key)
  {
    hide ReadMembers;
    hide Classified;
  }

  lemma {:induction false} OneOccurrence(ms: seq<Member>, key: string) returns (k: nat)
    requires Occurrences(ms, key) == 1
    ensures k < |ms| && ms[k].key == key && LastAt(ms, key) == ms[k].at
    ensures forall i | 0 <= i < |ms| && i != k :: ms[i].key != key
  {
    var n := |ms| - 1;
    if ms[n].key == key {
      k := n;
      NoOccurrence(ms[..n], key);
      assert forall i | 0 <= i < n :: ms[..n][i] == ms[i];
    } else {
      k := OneOccurrence(ms[..n], key);
      assert forall i | 0 <= i < n :: ms[..n][i] == ms[i];
    }
  }

  lemma {:induction false} NoOccurrence(ms: seq<Member>, key: string)
    requires Occurrences(ms, key) == 0
    ensures forall i | 0 <= i < |ms| :: ms[i].key != key
  {
    if ms != [] {
      var n := |ms| - 1;
      NoOccurrence(ms[..n], key);
      assert forall i | 0 <= i < n :: ms[..n][i] == ms[i];
    }
  }

  ghost predicate HasValue(s: string, m: Member) {
    exists e: nat :: Value(s, m.at, e, 0)
  }

  lemma PairHasValue(s: string, i: nat, j: nat, m: Member)
    requires Pair(s, i, j, 0, m)
    ensures HasValue(s, m)
  {
    var a, b, e := PairPieces(s, i, j, 0, m);
    hide Value;
  }

  lemma {:induction false} MembersHaveValues(s: string, i: nat, j: nat, ms: seq<Member>, k: nat)
    requires Members(s, i, j, 0, ms) && k < |ms|
    ensures HasValue(s, ms[k])
    decreases |ms|
  {
    hide *;
    var b := MembersParts(s, i, j, 0, ms);
    if k == 0 {
      PairHasValue(s, i, b, ms[0]);
    } else {
      var c := MoreMembersParts(s, b + 1, j, 0, ms[1..]);
      MembersHaveValues(s, c, j, ms[1..], k - 1);
    }
  }

  lemma {:induction false} OpenMembersHaveValues(s: string, i: nat, ms: seq<Member>, k: nat)
    requires OpenMembers(s, i, 0, ms) && k < |ms|
    ensures HasValue(s, ms[k])
    decreases |ms|
  {
    hide *;
    if i >= |s| {
      OpenAtEnd(s, i, 0, ms);
      assert false;
    } else {
      var b, c := OpenMembersParts(s, i, 0, ms);
      if k == 0 {
        PairHasValue(s, i, b, ms[0]);
      } else {
        OpenMembersHaveValues(s, c, ms[1..], k - 1);
      }
    }
  }

  /**
    A member is found only if exactly one top-level key is the one asked for, and
    then where its well-formed value starts.
   */
  lemma FoundMeans(s: string, key: string) returns (ms: seq<Member>, k: nat)
    requires Find(s, key).Valid?
    ensures Closed(s, ms) || Unclosed(s, ms)
    ensures k < |ms| && ms[k].key == key && Find(s, key).at == ms[k].at && HasValue(s, ms[k])
    ensures forall i | 0 <= i < |ms| && i != k :: ms[i].key != key
  {
    ms := ReadMembers(s).value;
    k := OneOccurrence(ms, key);
    hide *;
    ReadMembersExact(s, ms);
    if Closed(s, ms) {
      var a, b, e := ClosedParts(s, ms);
      MembersHaveValues(s, b, e, ms, k);
    } else {
      var a, b := UnclosedParts(s, ms);
      OpenMembersHaveValues(s, b, ms, k);
    }
  }

  // ---------------------------------------------------------------------
  // Typed readers.
  // ---------------------------------------------------------------------

  datatype Field<T> = MissingField | ValidField(value: T) | InvalidField

  /** A member that is a string, decoded. */
  method ReadString(s: string, key: string) returns (r: Field<string>)
    ensures r.MissingField? <==> Find(s, key) == Missing
    ensures r.ValidField? <==> Find(s, key).Valid? && exists j: nat, t: string :: Str(s, Find(s, key).at, j, t)
    ensures r.ValidField? ==> exists j: nat :: Str(s, Find(s, key).at, j, r.value)
  {
    hide *;
    var member := FindMember(s, key);
    if member.Missing? { return MissingField; }
    if member.Invalid? { return InvalidField; }
    FoundInText(s, key);
    var ok, pos, value := ParseString(s, member.at, true);
    StrDecides(s, member.at);
    if !ok { return InvalidField; }
    return ValidField(value);
  }

  lemma FoundInText(s: string, key: string)
    requires Find(s, key).Valid?
    ensures Find(s, key).at < |s|
  {
    var ms, k := FoundMeans(s, key);
    var e: nat :| Value(s, ms[k].at, e, 0);
    ValueStarts(s, ms[k].at, e, 0);
  }

  lemma StrDecides(s: string, i: nat)
    ensures StrAt(s, i).Some? <==> exists j: nat, t: string :: Str(s, i, j, t)
    ensures StrAt(s, i).Some? ==> Str(s, i, StrAt(s, i).value.0, StrAt(s, i).value.1)
  {
    if StrAt(s, i).Some? {
      StrExact(s, i, StrAt(s, i).value.0, StrAt(s, i).value.1);
    }
    if j: nat, t: string :| Str(s, i, j, t) {
      StrExact(s, i, j, t);
    }
    hide StrAt;
    hide Str;
  }

  /** A member that is a truth value. */
  method ReadBool(s: string, key: string) returns (r: Field<bool>)
    ensures r.MissingField? <==> Find(s, key) == Missing
    ensures r == ValidField(true) <==> Find(s, key).Valid? && Literal(s, Find(s, key).at, Find(s, key).at + 4, "true")
    ensures r == ValidField(false) <==> Find(s, key).Valid? && Literal(s, Find(s, key).at, Find(s, key).at + 5, "false")
  {
    var member := FindMember(s, key);
    hide Find;
    if member.Missing? { return MissingField; }
    if member.Invalid? { return InvalidField; }
    LiteralStarts(s, member.at, member.at + 4);
    LiteralStarts(s, member.at, member.at + 5);
    FoundInText(s, key);
    var t := ConsumeLiteral(s, member.at, "true");
    if t.Some? { return ValidField(true); }
    var f := ConsumeLiteral(s, member.at, "false");
    if f.Some? { return ValidField(false); }
    return InvalidField;
  }
}
