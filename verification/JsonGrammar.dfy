/**
  The JSON texts that the claims reader accepts, as a grammar over ranges of a
  text: `X(s, i, j, ...)` says that s[i..j] is an X.  It follows sections 2 to 7 of
  RFC 8259, with the vertical tab and form feed as further white space, escaped
  surrogates only in pairs, and nesting bounded.
 */
module JsonGrammar {
  import opened Records
  import opened Vectors
  import Utf8

  const MAX_DEPTH: nat := 64

  predicate IsDigit(c: char) {
    '0' <= c <= '9'
  }

  predicate Blank(s: string, i: nat, j: nat) {
    i <= j <= |s| && forall k | i <= k < j :: IsSpace(s[k])
  }

  predicate Literal(s: string, i: nat, j: nat, word: string) {
    j == i + |word| <= |s| && s[i..j] == word
  }

  // ---------------------------------------------------------------------
  // Numbers.
  // ---------------------------------------------------------------------

  predicate Digits(s: string, i: nat, j: nat) {
    i < j <= |s| && forall k | i <= k < j :: IsDigit(s[k])
  }

  predicate Int(s: string, i: nat, j: nat) {
    i < j <= |s| && if s[i] == '0' then j == i + 1 else Digits(s, i, j)
  }

  predicate Frac(s: string, i: nat, j: nat) {
    i <= j <= |s| && (j == i || (s[i] == '.' && Digits(s, i + 1, j)))
  }

  predicate Exp(s: string, i: nat, j: nat) {
    && i <= j <= |s|
    && (j == i || ((s[i] == 'e' || s[i] == 'E') && (Digits(s, i + 1, j) || (i + 1 < |s| && (s[i + 1] == '+' || s[i + 1] == '-') && Digits(s, i + 2, j)))))
  }

  ghost predicate Number(s: string, i: nat, j: nat) {
    i < |s| && exists b, c :: Int(s, if s[i] == '-' then i + 1 else i, b) && Frac(s, b, c) && Exp(s, c, j)
  }

  // ---------------------------------------------------------------------
  // Strings.
  // ---------------------------------------------------------------------

  function HexValue(c: char): Option<nat> {
    if '0' <= c <= '9' then Some(c as int - '0' as int)
    else if 'a' <= c <= 'f' then Some(c as int - 'a' as int + 10)
    else if 'A' <= c <= 'F' then Some(c as int - 'A' as int + 10)
    else None
  }

  function HexDigits(s: string, i: nat, n: nat): Option<nat>
    requires i + n <= |s|
  {
    if n == 0 then Some(0)
    else
      var high, low := HexDigits(s, i, n - 1), HexValue(s[i + n - 1]);
      if high.None? || low.None? then None else Some(high.value * 16 + low.value)
  }

  /** The code unit of four hexadecimal digits. */
  function Hex4(s: string, i: nat): Option<nat> {
    if i + 4 > |s| then None else HexDigits(s, i, 4)
  }

  function Unescaped(c: char): Option<char> {
    if c == '"' || c == '\\' || c == '/' then Some(c)
    else if c == 'b' then Some(8 as char)
    else if c == 'f' then Some(12 as char)
    else if c == 'n' then Some('\n')
    else if c == 'r' then Some('\r')
    else if c == 't' then Some('\t')
    else None
  }

  predicate Plain(s: string, i: nat, u: string) {
    i < |s| && s[i] >= ' ' && s[i] != '"' && s[i] != '\\' && u == [s[i]]
  }

  predicate Escape(s: string, i: nat, u: string) {
    i + 1 < |s| && s[i] == '\\' && Unescaped(s[i + 1]).Some? && u == [Unescaped(s[i + 1]).value]
  }

  predicate HexEscape(s: string, i: nat, u: string) {
    && i + 1 < |s| && s[i] == '\\' && s[i + 1] == 'u' && Hex4(s, i + 2).Some?
    && Utf8.Scalar(Hex4(s, i + 2).value) && u == Utf8.Encoding(Hex4(s, i + 2).value)
  }

  function PairCodePoint(high: nat, low: nat): nat
    requires 0xd800 <= high <= 0xdbff && 0xdc00 <= low <= 0xdfff
  {
    0x10000 + (high - 0xd800) * 1024 + (low - 0xdc00)
  }

  predicate SurrogatePair(s: string, i: nat, u: string) {
    && i + 1 < |s| && s[i] == '\\' && s[i + 1] == 'u' && Hex4(s, i + 2).Some? && 0xd800 <= Hex4(s, i + 2).value <= 0xdbff
    && i + 7 < |s| && s[i + 6] == '\\' && s[i + 7] == 'u' && Hex4(s, i + 8).Some? && 0xdc00 <= Hex4(s, i + 8).value <= 0xdfff
    && Utf8.Scalar(PairCodePoint(Hex4(s, i + 2).value, Hex4(s, i + 8).value))
    && u == Utf8.Encoding(PairCodePoint(Hex4(s, i + 2).value, Hex4(s, i + 8).value))
  }

  /** One character of a string, and the bytes it stands for. */
  predicate Item(s: string, i: nat, j: nat, u: string) {
    || (j == i + 1 && Plain(s, i, u))
    || (j == i + 2 && Escape(s, i, u))
    || (j == i + 6 && HexEscape(s, i, u))
    || (j == i + 12 && SurrogatePair(s, i, u))
  }

  /** Characters up to and with the closing quote, and what they stand for. */
  ghost predicate Chars(s: string, i: nat, j: nat, t: string)
    decreases |s| - i
  {
    && i < |s|
    && ((s[i] == '"' && j == i + 1 && t == "") ||
        exists k: nat, u: string | i < k <= |s| && Item(s, i, k, u) :: u <= t && Chars(s, k, j, t[|u|..]))
  }

  ghost predicate Str(s: string, i: nat, j: nat, t: string) {
    i < |s| && s[i] == '"' && Chars(s, i + 1, j, t)
  }

  // ---------------------------------------------------------------------
  // Values.
  // ---------------------------------------------------------------------

  datatype Member = Member(key: string, at: nat)

  /** A value without white space before it, at a depth. */
  ghost predicate Value(s: string, i: nat, j: nat, depth: nat)
    decreases |s| - i, 2
  {
    && i < j <= |s| && depth <= MAX_DEPTH
    && (|| (exists t: string :: Str(s, i, j, t))
        || Number(s, i, j)
        || Literal(s, i, j, "true") || Literal(s, i, j, "false") || Literal(s, i, j, "null")
        || (s[i] == '[' && Array(s, i + 1, j, depth + 1))
        || (s[i] == '{' && Object(s, i + 1, j, depth + 1)))
  }

  /** After the opening bracket: nothing, or elements. */
  ghost predicate Array(s: string, i: nat, j: nat, depth: nat)
    decreases |s| - i, 4
  {
    exists k: nat | i <= k < |s| && Blank(s, i, k) :: (s[k] == ']' && j == k + 1) || Elements(s, k, j, depth)
  }

  ghost predicate Elements(s: string, i: nat, j: nat, depth: nat)
    decreases |s| - i, 3
  {
    exists a: nat, b: nat | i < a <= b < |s| && Value(s, i, a, depth) && Blank(s, a, b) ::
      (s[b] == ']' && j == b + 1) || (s[b] == ',' && MoreElements(s, b + 1, j, depth))
  }

  ghost predicate MoreElements(s: string, i: nat, j: nat, depth: nat)
    decreases |s| - i, 4
  {
    exists c: nat | i <= c < |s| && Blank(s, i, c) :: Elements(s, c, j, depth)
  }

  ghost predicate Object(s: string, i: nat, j: nat, depth: nat)
    decreases |s| - i, 5
  {
    exists k: nat | i <= k < |s| && Blank(s, i, k) :: (s[k] == '}' && j == k + 1) || exists ms :: Members(s, k, j, depth, ms)
  }

  /** A name, a colon, and a value that starts at m.at, with the white space after it. */
  ghost predicate Pair(s: string, i: nat, j: nat, depth: nat, m: Member)
    decreases |s| - i, 3
  {
    exists a: nat, b: nat, e: nat | i < a <= b < m.at < e <= j <= |s| && Str(s, i, a, m.key) && Blank(s, a, b) && s[b] == ':' && Blank(s, b + 1, m.at) && Blank(s, e, j) ::
      Value(s, m.at, e, depth)
  }

  /** Members up to and with the closing brace. */
  ghost predicate Members(s: string, i: nat, j: nat, depth: nat, ms: seq<Member>)
    decreases |s| - i, 4
  {
    && ms != []
    && exists b: nat | i < b < |s| && Pair(s, i, b, depth, ms[0]) ::
         (s[b] == '}' && j == b + 1 && |ms| == 1) || (s[b] == ',' && MoreMembers(s, b + 1, j, depth, ms[1..]))
  }

  ghost predicate MoreMembers(s: string, i: nat, j: nat, depth: nat, ms: seq<Member>)
    decreases |s| - i, 5
  {
    exists c: nat | i <= c < |s| && Blank(s, i, c) :: Members(s, c, j, depth, ms)
  }

  /** Members each with a comma after it, up to the end of the text. */
  ghost predicate OpenMembers(s: string, i: nat, depth: nat, ms: seq<Member>)
    decreases |s| - i
  {
    if i >= |s| then ms == []
    else
      && ms != []
      && exists b: nat, c: nat | i < b < c <= |s| && Pair(s, i, b, depth, ms[0]) && s[b] == ',' && Blank(s, b + 1, c) ::
           (c < |s| ==> !IsSpace(s[c])) && OpenMembers(s, c, depth, ms[1..])
  }

  /** A whole text that is one object, with its members in order. */
  ghost predicate Closed(s: string, ms: seq<Member>) {
    exists a: nat, b: nat, e: nat | a < b < e <= |s| && Blank(s, 0, a) && s[a] == '{' && Blank(s, a + 1, b) && Blank(s, e, |s|) ::
      if s[b] == '}' then e == b + 1 && ms == [] else Members(s, b, e, 0, ms)
  }

  /** A text that ends right after the opening brace or after a comma between members. */
  ghost predicate Unclosed(s: string, ms: seq<Member>) {
    exists a: nat, b: nat | a < b <= |s| && Blank(s, 0, a) && s[a] == '{' && Blank(s, a + 1, b) ::
      (b < |s| ==> !IsSpace(s[b])) && OpenMembers(s, b, 0, ms)
  }
}
