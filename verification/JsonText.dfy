/** `JSON.stringify` for strings and for arrays of strings, and the decoder that undoes it.
    Strings may hold lone surrogates, which are written as escapes. */
module JsonText {
  import opened JsText

  const DQUOTE: CodeUnit := 34
  const BACKSLASH: CodeUnit := 92
  const COMMA: CodeUnit := 44
  const LBRACKET: CodeUnit := 91
  const RBRACKET: CodeUnit := 93

  function HexDigit(n: int): CodeUnit
    requires 0 <= n < 16
  {
    if n < 10 then (48 + n) as CodeUnit else (87 + n) as CodeUnit
  }

  function HexValue(u: CodeUnit): (n: int)
    ensures 0 <= n < 16
  {
    if 48 <= u <= 57 then u as int - 48 else if 97 <= u <= 102 then u as int - 87 else 0
  }

  /** `\uXXXX` with lower-case hexadecimal digits. */
  function UnicodeEscape(u: CodeUnit): Text {
    var n := u as int;
    [BACKSLASH, 117, HexDigit(n / 4096), HexDigit(n / 256 % 16), HexDigit(n / 16 % 16), HexDigit(n % 16)]
  }

  /** The letter of the two-unit escape of `u`, when it has one. */
  function ShortEscape(u: CodeUnit): Option<CodeUnit> {
    if u == DQUOTE then Some(34)
    else if u == BACKSLASH then Some(92)
    else if u == 8 then Some(98)
    else if u == 9 then Some(116)
    else if u == 10 then Some(110)
    else if u == 12 then Some(102)
    else if u == 13 then Some(114)
    else None
  }

  function EscapeUnit(u: CodeUnit): Text {
    var short := ShortEscape(u);
    if short.Some? then [BACKSLASH, short.value]
    else if u < 32 || IsHigh(u) || IsLow(u) then UnicodeEscape(u)
    else [u]
  }

  /** The text between the quotes. `JSON.stringify` leaves a surrogate pair alone. */
  function EscapeAll(s: Text): Text {
    if s == [] then []
    else if StartsWithPair(s) then s[..2] + EscapeAll(s[2..])
    else EscapeUnit(s[0]) + EscapeAll(s[1..])
  }

  function Quote(s: Text): Text {
    [DQUOTE] + EscapeAll(s) + [DQUOTE]
  }

  datatype Decoded<+T> = Failed | Got(value: T, rest: Text)

  function UnescapeShort(letter: CodeUnit): CodeUnit {
    if letter == 98 then 8
    else if letter == 116 then 9
    else if letter == 110 then 10
    else if letter == 102 then 12
    else if letter == 114 then 13
    else letter
  }

  function Prepend(u: CodeUnit, d: Decoded<Text>): Decoded<Text> {
    if d.Got? then Got([u] + d.value, d.rest) else Failed
  }

  /** Reads the body of a string literal up to and including the closing quote. */
  function Unescape(t: Text): (d: Decoded<Text>)
    ensures d.Got? ==> |d.rest| < |t|
  {
    if t == [] then Failed
    else if t[0] == DQUOTE then Got([], t[1..])
    else if t[0] != BACKSLASH then Prepend(t[0], Unescape(t[1..]))
    else if |t| < 2 then Failed
    else if t[1] != 117 then Prepend(UnescapeShort(t[1]), Unescape(t[2..]))
    else if |t| < 6 then Failed
    else
      var n := HexValue(t[2]) * 4096 + HexValue(t[3]) * 256 + HexValue(t[4]) * 16 + HexValue(t[5]);
      Prepend(n as CodeUnit, Unescape(t[6..]))
  }

  function Unquote(t: Text): (d: Decoded<Text>)
    ensures d.Got? ==> |d.rest| < |t|
  {
    if t == [] || t[0] != DQUOTE then Failed else Unescape(t[1..])
  }

  lemma EscapedUnitDecodes(u: CodeUnit, t: Text)
    ensures Unescape(EscapeUnit(u) + t) == Prepend(u, Unescape(t))
  {
    if ShortEscape(u).Some? {
      ShortEscapeDecodes(u, t);
    } else if u < 32 || IsHigh(u) || IsLow(u) {
      UnicodeEscapeDecodes(u, t);
    } else {
      LiteralUnitDecodes(u, t);
    }
  }

  lemma ShortEscapeDecodes(u: CodeUnit, t: Text)
    requires ShortEscape(u).Some?
    ensures Unescape(EscapeUnit(u) + t) == Prepend(u, Unescape(t))
  {
    assert (EscapeUnit(u) + t)[2..] == t;
  }

  lemma FourHexDigits(n: nat)
    requires n < 0x10000
    ensures n == HexValue(HexDigit(n / 4096)) * 4096 + HexValue(HexDigit(n / 256 % 16)) * 256
      + HexValue(HexDigit(n / 16 % 16)) * 16 + HexValue(HexDigit(n % 16))
  {
    var a, b := n / 16, n / 256;
    assert b == a / 16 && n / 4096 == b / 16;
    assert n == a * 16 + n % 16 && a == b * 16 + a % 16 && b == b / 16 * 16 + b % 16;
  }

  lemma UnicodeEscapeDecodes(u: CodeUnit, t: Text)
    ensures Unescape(UnicodeEscape(u) + t) == Prepend(u, Unescape(t))
  {
    FourHexDigits(u as int);
    assert (UnicodeEscape(u) + t)[6..] == t;
  }

  lemma LiteralUnitDecodes(u: CodeUnit, t: Text)
    requires u != DQUOTE && u != BACKSLASH
    ensures Unescape([u] + t) == Prepend(u, Unescape(t))
  {
    assert ([u] + t)[1..] == t;
  }

  lemma EscapedPairSplit(s: Text, tail: Text)
    requires StartsWithPair(s)
    ensures EscapeAll(s) + tail == s[..2] + (EscapeAll(s[2..]) + tail)
  { }

  lemma EscapedUnitSplit(s: Text, tail: Text)
    requires s != [] && !StartsWithPair(s)
    ensures EscapeAll(s) + tail == EscapeUnit(s[0]) + (EscapeAll(s[1..]) + tail)
  { }

  lemma {:induction false} EscapedTextDecodes(s: Text, tail: Text)
    requires tail != [] && tail[0] == DQUOTE
    ensures Unescape(EscapeAll(s) + tail) == Got(s, tail[1..])
  {
    if s == [] {
      assert EscapeAll(s) + tail == tail;
    } else if StartsWithPair(s) {
      EscapedTextDecodes(s[2..], tail);
      EscapedPairSplit(s, tail);
      EscapedPairDecodes(s, EscapeAll(s[2..]) + tail, tail[1..]);
    } else {
      EscapedTextDecodes(s[1..], tail);
      EscapedUnitSplit(s, tail);
      EscapedUnitDecodes(s[0], EscapeAll(s[1..]) + tail);
      assert s == [s[0]] + s[1..];
    }
  }

  lemma EscapedPairDecodes(s: Text, inner: Text, rest: Text)
    requires StartsWithPair(s)
    requires Unescape(inner) == Got(s[2..], rest)
    ensures Unescape(s[..2] + inner) == Got(s, rest)
  {
    LiteralUnitDecodes(s[1], inner);
    LiteralUnitDecodes(s[0], [s[1]] + inner);
    assert s[..2] + inner == [s[0]] + ([s[1]] + inner);
    assert s == [s[0]] + ([s[1]] + s[2..]);
  }

  /** Reading a written string literal gives the string back, whatever follows it. */
  lemma QuoteRoundTrip(s: Text, rest: Text)
    ensures Unquote(Quote(s) + rest) == Got(s, rest)
  {
    var tail := [DQUOTE] + rest;
    assert (Quote(s) + rest)[1..] == EscapeAll(s) + tail;
    assert tail[1..] == rest;
    EscapedTextDecodes(s, tail);
  }

  /** The elements of an array of strings, separated by commas. */
  function QuoteList(items: seq<Text>): Text {
    if items == [] then []
    else if |items| == 1 then Quote(items[0])
    else Quote(items[0]) + [COMMA] + QuoteList(items[1..])
  }

  /** `JSON.stringify` of an array of strings. */
  function StringifyStrings(items: seq<Text>): Text {
    [LBRACKET] + QuoteList(items) + [RBRACKET]
  }

  /** What follows the first element of a list. */
  function MoreQuotes(items: seq<Text>): Text
    requires items != []
  {
    if |items| == 1 then [] else [COMMA] + QuoteList(items[1..])
  }

  lemma QuoteListHead(items: seq<Text>)
    requires items != []
    ensures Unquote(QuoteList(items)) == Got(items[0], MoreQuotes(items))
  {
    assert QuoteList(items) == Quote(items[0]) + MoreQuotes(items);
    QuoteRoundTrip(items[0], MoreQuotes(items));
  }

  lemma QuoteListEmpty(items: seq<Text>)
    ensures QuoteList(items) == [] <==> items == []
  {
    if items != [] {
      assert Quote(items[0])[0] == DQUOTE;
      assert QuoteList(items)[0] == Quote(items[0])[0];
    }
  }

  lemma {:induction false} QuoteListInjective(a: seq<Text>, b: seq<Text>)
    requires QuoteList(a) == QuoteList(b)
    ensures a == b
  {
    QuoteListEmpty(a);
    QuoteListEmpty(b);
    if a != [] {
      QuoteListHead(a);
      QuoteListHead(b);
      if |a| > 1 {
        assert MoreQuotes(a)[1..] == QuoteList(a[1..]) && MoreQuotes(b)[1..] == QuoteList(b[1..]);
        QuoteListInjective(a[1..], b[1..]);
      }
      assert a == [a[0]] + a[1..] && b == [b[0]] + b[1..];
    }
  }

  /** No choice of contents or of their number makes two different lists serialize alike. */
  lemma StringifyInjective(a: seq<Text>, b: seq<Text>)
    requires StringifyStrings(a) == StringifyStrings(b)
    ensures a == b
  {
    assert StringifyStrings(a)[1..|StringifyStrings(a)| - 1] == QuoteList(a);
    assert StringifyStrings(b)[1..|StringifyStrings(b)| - 1] == QuoteList(b);
    QuoteListInjective(a, b);
  }
}
