/** Which addresses the SSRF guard blocks, by the guard's own text and bit operations. */
module Ssrf {
  import opened JsText
  import opened Int32

  const DOT: CodeUnit := 46
  const COLON: CodeUnit := 58

  datatype Block = Block(base: nat, prefix: nat)

  const IPV4_BLOCKED: seq<Block> := [
    Block(0x7f000000, 8), Block(0x0a000000, 8), Block(0xac100000, 12),
    Block(0xc0a80000, 16), Block(0xa9fe0000, 16), Block(0x00000000, 8)]

  function InCidr(ip: nat, base: nat, prefix: nat): bool
    requires prefix <= 32
  {
    var mask := if prefix == 0 then 0 else ToUint32(Shl(-1, 32 - prefix));
    And(ip, mask) == And(base, mask)
  }

  /** Membership in a block is equality of the leading bits (RFC 4632 section 3.1). */
  lemma InCidrIsPrefix(ip: nat, base: nat, prefix: nat)
    requires ip < TWO32 && base < TWO32 && prefix <= 32
    ensures InCidr(ip, base, prefix) <==> ip / Pow2(32 - prefix) == base / Pow2(32 - prefix)
  {
    if prefix == 0 {
      AndZero(ip, BITS);
      AndZero(base, BITS);
      Powers();
    } else {
      SameUnderMask(ip, base, ToUint32(Shl(-1, 32 - prefix)), 32 - prefix);
    }
  }

  function InBlocks(ip: nat): bool {
    exists i :: 0 <= i < |IPV4_BLOCKED| && InBlock(ip, i)
  }

  predicate InBlock(ip: nat, i: nat)
    requires i < |IPV4_BLOCKED|
  {
    InCidr(ip, IPV4_BLOCKED[i].base, IPV4_BLOCKED[i].prefix)
  }

  /** `Number(part)` where that is an integer. */
  type Numeric = Text -> Option<int>

  predicate IsOctet(number: Numeric, part: Text) {
    number(part).Some? && 0 <= number(part).value <= 255
  }

  function OctetAt(number: Numeric, part: Text): nat
    requires IsOctet(number, part)
  {
    number(part).value
  }

  /** The first `i` octets as one number. */
  function Packed(number: Numeric, parts: seq<Text>, i: nat): nat
    requires i <= |parts| && forall j :: 0 <= j < i ==> IsOctet(number, parts[j])
  {
    if i == 0 then 0
    else
      assert IsOctet(number, parts[i - 1]);
      Packed(number, parts, i - 1) * 256 + OctetAt(number, parts[i - 1])
  }

  /** The number of an IPv4 address, if the text is one. */
  function Address(number: Numeric, ip: Text): Option<nat> {
    var parts := Split(ip, DOT);
    if |parts| == 4 && forall j :: 0 <= j < 4 ==> IsOctet(number, parts[j])
    then Some(Packed(number, parts, 4))
    else None
  }

  lemma PackedBounds(number: Numeric, parts: seq<Text>, i: nat)
    requires i <= |parts| && i <= 3 && forall j :: 0 <= j < i ==> IsOctet(number, parts[j])
    ensures Packed(number, parts, i) < 0x100_0000
  {
    assert i > 0 ==> Packed(number, parts, 1) == Packed(number, parts, 0) * 256 + number(parts[0]).value;
    assert i > 1 ==> Packed(number, parts, 2) == Packed(number, parts, 1) * 256 + number(parts[1]).value;
  }

  lemma PackOne(number: Numeric, parts: seq<Text>, i: nat)
    requires i < 4 == |parts| && IsOctet(number, parts[i]) && forall j :: 0 <= j < i ==> IsOctet(number, parts[j])
    ensures Or(Shl(ToInt32(Packed(number, parts, i)), 8), OctetAt(number, parts[i]))
      == ToInt32(Packed(number, parts, i + 1))
  {
    PackedBounds(number, parts, i);
    Small(Packed(number, parts, i));
    ShiftIn(Packed(number, parts, i), number(parts[i]).value);
  }

  method ParseIPv4(number: Numeric, ip: Text) returns (r: Option<nat>)
    ensures r == Address(number, ip)
  {
    var parts := Split(ip, DOT);
    if |parts| != 4 {
      return None;
    }
    var result := 0;
    for i := 0 to |parts|
      invariant forall j :: 0 <= j < i ==> IsOctet(number, parts[j])
      invariant result == ToInt32(Packed(number, parts, i))
    {
      var n := number(parts[i]);
      if n.None? || n.value < 0 || n.value > 255 {
        assert !IsOctet(number, parts[i]);
        return None;
      }
      assert IsOctet(number, parts[i]);
      PackOne(number, parts, i);
      result := Or(Shl(result, 8), n.value);
    }
    PackedFour(number, parts);
    r := Some(ToUint32(result));
  }

  lemma PackedFour(number: Numeric, parts: seq<Text>)
    requires |parts| == 4 && forall j :: 0 <= j < 4 ==> IsOctet(number, parts[j])
    ensures Packed(number, parts, 4)
      == number(parts[0]).value * 0x1000000 + number(parts[1]).value * 0x10000
         + number(parts[2]).value * 0x100 + number(parts[3]).value
    ensures Packed(number, parts, 4) < TWO32
    ensures ToUint32(ToInt32(Packed(number, parts, 4))) == Packed(number, parts, 4)
  {
    assert Packed(number, parts, 1) == number(parts[0]).value;
    assert Packed(number, parts, 2) == number(parts[0]).value * 0x100 + number(parts[1]).value;
    assert Packed(number, parts, 3) == Packed(number, parts, 2) * 256 + number(parts[2]).value;
  }

  /** The decimal digits that a template string writes for an octet. */
  function Decimal(n: nat): Text
    requires n < 256
  {
    if n < 10 then [Digit(n)]
    else if n < 100 then [Digit(n / 10), Digit(n % 10)]
    else [Digit(n / 100), Digit(n / 10 % 10), Digit(n % 10)]
  }

  function Digit(n: nat): CodeUnit
    requires n < 10
  {
    (48 + n) as CodeUnit
  }

  predicate IsDigit(u: CodeUnit) { 48 <= u <= 57 }

  function Dotted(a: nat, b: nat, c: nat, d: nat): Text
    requires a < 256 && b < 256 && c < 256 && d < 256
  {
    Join([Decimal(a), Decimal(b), Decimal(c), Decimal(d)], DOT)
  }

  /** `toLowerCase` on the letters of an address. */
  function LowerUnit(u: CodeUnit): CodeUnit {
    if 65 <= u <= 90 then u + 32 else u
  }

  function Lower(t: Text): Text {
    seq(|t|, i requires 0 <= i < |t| => LowerUnit(t[i]))
  }

  /** "::ffff:" */
  const MAPPED: Text := [58, 58, 102, 102, 102, 102, 58]

  /** What follows the IPv4-mapped prefix, in either case. */
  function MappedTail(ip: Text): Option<Text> {
    if |ip| >= |MAPPED| && Lower(ip[..|MAPPED|]) == MAPPED then Some(ip[|MAPPED|..]) else None
  }

  /** `/^\d+\.\d+\.\d+\.\d+$/` */
  predicate IsDottedDigits(t: Text) {
    var parts := Split(t, DOT);
    && |parts| == 4
    && (forall i :: 0 <= i < 4 ==> parts[i] != [])
    && (forall i, j :: 0 <= i < 4 && 0 <= j < |parts[i]| ==> IsDigit(parts[i][j]))
  }

  predicate IsHex(u: CodeUnit) {
    IsDigit(u) || 65 <= u <= 70 || 97 <= u <= 102
  }

  function HexValue(u: CodeUnit): (n: nat)
    requires IsHex(u)
    ensures n < 16
  {
    if IsDigit(u) then u as int - 48 else if u <= 70 then u as int - 55 else u as int - 87
  }

  predicate AllHex(t: Text) {
    forall i :: 0 <= i < |t| ==> IsHex(t[i])
  }

  function HexNumber(t: Text): nat
    requires AllHex(t)
  {
    if t == [] then 0 else HexNumber(t[..|t| - 1]) * 16 + HexValue(t[|t| - 1])
  }

  predicate IsGroup(t: Text) {
    1 <= |t| <= 4 && AllHex(t)
  }

  lemma {:induction false} HexBound(t: Text)
    requires AllHex(t) && |t| <= 4
    ensures |t| <= 3 ==> HexNumber(t) < 0x1000
    ensures HexNumber(t) < 0x10000
    ensures |t| == 4 ==>
      HexNumber(t) == HexValue(t[0]) * 0x1000 + HexValue(t[1]) * 0x100 + HexValue(t[2]) * 0x10 + HexValue(t[3])
  {
    if |t| > 0 { assert HexNumber(t[..1]) == HexValue(t[0]); }
    if |t| > 1 { assert t[..2][..1] == t[..1]; assert HexNumber(t[..2]) == HexNumber(t[..1]) * 16 + HexValue(t[1]); }
    if |t| > 2 { assert t[..3][..2] == t[..2]; assert HexNumber(t[..3]) == HexNumber(t[..2]) * 16 + HexValue(t[2]); }
    if |t| > 3 { assert t[..4][..3] == t[..3]; assert t[..4] == t; }
    assert t[..|t|] == t;
  }

  /** The leading hexadecimal digits. */
  function HexRun(t: Text): (r: Text)
    ensures AllHex(r) && |r| <= |t|
    ensures |r| == |t| ==> r == t
  {
    if t == [] || !IsHex(t[0]) then []
    else
      assert t == [t[0]] + t[1..];
      [t[0]] + HexRun(t[1..])
  }

  /** `parseInt(t, 16)`: blanks, a sign and `0x` may come first; no digit gives no number. */
  function ParseHex(t: Text): Option<int> {
    var s := TrimStart(t);
    var unsigned := if s != [] && (s[0] == 43 || s[0] == 45) then s[1..] else s;
    var prefixed := |unsigned| > 1 && unsigned[0] == 48 && (unsigned[1] == 120 || unsigned[1] == 88);
    var digits := HexRun(if prefixed then unsigned[2..] else unsigned);
    if digits == [] then None
    else if s[0] == 45 then Some(0 - HexNumber(digits))
    else Some(HexNumber(digits))
  }

  /** Strips blanks from the left, so what is left is no longer than the text. */
  lemma {:induction false} TrimStartShorter(t: Text)
    ensures |TrimStart(t)| <= |t|
    ensures |TrimStart(t)| == |t| ==> TrimStart(t) == t
  {
    if t != [] && IsSpace(t[0]) {
      TrimStartShorter(t[1..]);
    }
  }

  const LOOPBACK: Text := [58, 58, 49]

  function IsBlockedIPv6(ip: Text): bool {
    var normalized := Lower(ip);
    || normalized == LOOPBACK
    || FC <= normalized || FD <= normalized
    || (var prefix := ParseHex(FirstFour(normalized));
        prefix.Some? && 0xfe80 <= prefix.value <= 0xfebf)
  }

  function IsBlocked(number: Numeric, ip: Text): bool {
    var v4 := Address(number, ip);
    if v4.Some? then InBlocks(v4.value) else IsBlockedIPv6(ip)
  }

  /** `/^[0-9a-f]{1,4}:[0-9a-f]{1,4}$/i` */
  predicate IsHexPair(t: Text) {
    var parts := Split(t, COLON);
    |parts| == 2 && IsGroup(parts[0]) && IsGroup(parts[1])
  }

  lemma MappedStartsWithColon(ip: Text)
    requires MappedTail(ip).Some?
    ensures ip != [] && ip[0] == COLON
  {
    assert Lower(ip[..|MAPPED|])[0] == LowerUnit(ip[0]);
  }

  lemma DottedDigitsStart(t: Text)
    requires IsDottedDigits(t)
    ensures t != [] && IsDigit(t[0])
  {
    assert Split(t, DOT)[0] != [];
    assert Split(t, DOT)[0][0] == t[0];
  }

  lemma DottedStarts(a: nat, b: nat, c: nat, d: nat)
    requires a < 256 && b < 256 && c < 256 && d < 256
    ensures Dotted(a, b, c, d) != [] && IsDigit(Dotted(a, b, c, d)[0])
  { }

  function IsPrivateIp(number: Numeric, ip: Text): bool
    decreases if ip != [] && ip[0] == COLON then 1 else 0
  {
    var tail := MappedTail(ip);
    if tail.Some? && IsDottedDigits(tail.value) then
      MappedStartsWithColon(ip);
      DottedDigitsStart(tail.value);
      IsPrivateIp(number, tail.value)
    else if tail.Some? && IsHexPair(tail.value) then
      var parts := Split(tail.value, COLON);
      var hi, lo := HexNumber(parts[0]), HexNumber(parts[1]);
      MappedStartsWithColon(ip);
      HexBound(parts[0]);
      HexBound(parts[1]);
      Octets(hi);
      Octets(lo);
      var a, b, c, d := And(Shr(hi, 8), 0xff), And(hi, 0xff), And(Shr(lo, 8), 0xff), And(lo, 0xff);
      DottedStarts(a, b, c, d);
      IsPrivateIp(number, Dotted(a, b, c, d))
    else IsBlocked(number, ip)
  }

  /** The ranges the source lists, by octets; three of them are those of RFC 1918 section 3. */
  predicate InRanges(a: nat, b: nat) {
    || a == 127 || a == 10 || (a == 172 && 16 <= b < 32) || (a == 192 && b == 168) || (a == 169 && b == 254)
    || a == 0
  }

  /** `Number` reads the decimal digits of an octet, and refuses a text with a colon. */
  ghost predicate ReadsDecimals(number: Numeric) {
    && (forall n: nat :: n < 256 ==> number(Decimal(n)) == Some(n))
    && (forall t :: COLON in t ==> number(t) == None)
  }

  lemma DecimalDigits(n: nat)
    requires n < 256
    ensures Decimal(n) != [] && DOT !in Decimal(n) && forall i :: 0 <= i < |Decimal(n)| ==> IsDigit(Decimal(n)[i])
  { }

  lemma DottedParts(a: nat, b: nat, c: nat, d: nat)
    requires a < 256 && b < 256 && c < 256 && d < 256
    ensures Split(Dotted(a, b, c, d), DOT) == [Decimal(a), Decimal(b), Decimal(c), Decimal(d)]
    ensures IsDottedDigits(Dotted(a, b, c, d))
  {
    DecimalDigits(a);
    DecimalDigits(b);
    DecimalDigits(c);
    DecimalDigits(d);
    SplitJoin([Decimal(a), Decimal(b), Decimal(c), Decimal(d)], DOT);
  }

  lemma AddressOfDotted(number: Numeric, a: nat, b: nat, c: nat, d: nat)
    requires a < 256 && b < 256 && c < 256 && d < 256 && ReadsDecimals(number)
    ensures Address(number, Dotted(a, b, c, d)) == Some(a * 0x1000000 + b * 0x10000 + c * 0x100 + d)
  {
    DottedParts(a, b, c, d);
    var parts := [Decimal(a), Decimal(b), Decimal(c), Decimal(d)];
    assert IsOctet(number, parts[0]) && IsOctet(number, parts[1]);
    assert IsOctet(number, parts[2]) && IsOctet(number, parts[3]);
    PackedFour(number, parts);
  }

  lemma RangeOfBlock(ip: nat, base: nat, prefix: nat, width: nat)
    requires ip < TWO32 && base < TWO32 && prefix <= 32 && width == Pow2(32 - prefix)
    ensures InCidr(ip, base, prefix) <==> ip / width == base / width
  {
    InCidrIsPrefix(ip, base, prefix);
  }

  lemma Widths()
    ensures Pow2(24) == 0x100_0000 && Pow2(20) == 0x10_0000 && Pow2(16) == 0x1_0000
  {
    Powers();
    PowAdds(16, 8);
    PowAdds(16, 4);
    assert Pow2(4) == 16;
  }

  lemma InBlocksCases(ip: nat)
    ensures InBlocks(ip) <==>
      InBlock(ip, 0) || InBlock(ip, 1) || InBlock(ip, 2) || InBlock(ip, 3) || InBlock(ip, 4) || InBlock(ip, 5)
  {
    if InBlocks(ip) {
      var i :| 0 <= i < |IPV4_BLOCKED| && InBlock(ip, i);
      assert i == 0 || i == 1 || i == 2 || i == 3 || i == 4 || i == 5;
    }
  }

  lemma Quotients(a: nat, b: nat, low: nat)
    requires a < 256 && b < 256 && low < 0x10000
    ensures var ip := a * 0x1000000 + b * 0x10000 + low;
      ip < TWO32 && ip / 0x1000000 == a && ip / 0x10000 == a * 256 + b && ip / 0x100000 == a * 16 + b / 16
  { }

  lemma WideBlocks(ip: nat)
    requires ip < TWO32
    ensures InBlock(ip, 0) <==> ip / 0x1000000 == 127
    ensures InBlock(ip, 1) <==> ip / 0x1000000 == 10
    ensures InBlock(ip, 5) <==> ip / 0x1000000 == 0
  {
    Widths();
    RangeOfBlock(ip, 0x7f000000, 8, 0x1000000);
    RangeOfBlock(ip, 0x0a000000, 8, 0x1000000);
    RangeOfBlock(ip, 0x00000000, 8, 0x1000000);
  }

  lemma NarrowBlocks(ip: nat)
    requires ip < TWO32
    ensures InBlock(ip, 2) <==> ip / 0x100000 == 172 * 16 + 1
    ensures InBlock(ip, 3) <==> ip / 0x10000 == 192 * 256 + 168
    ensures InBlock(ip, 4) <==> ip / 0x10000 == 169 * 256 + 254
  {
    Widths();
    RangeOfBlock(ip, 0xac100000, 12, 0x100000);
    RangeOfBlock(ip, 0xc0a80000, 16, 0x10000);
    RangeOfBlock(ip, 0xa9fe0000, 16, 0x10000);
  }

  lemma BlocksAreRanges(a: nat, b: nat, low: nat)
    requires a < 256 && b < 256 && low < 0x10000
    ensures InBlocks(a * 0x1000000 + b * 0x10000 + low) <==> InRanges(a, b)
  {
    var ip := a * 0x1000000 + b * 0x10000 + low;
    Quotients(a, b, low);
    WideBlocks(ip);
    NarrowBlocks(ip);
    InBlocksCases(ip);
  }

  /** A dotted address is blocked exactly when its octets are in a listed range. */
  lemma DottedIsPrivateIff(number: Numeric, a: nat, b: nat, c: nat, d: nat)
    requires a < 256 && b < 256 && c < 256 && d < 256 && ReadsDecimals(number)
    ensures IsPrivateIp(number, Dotted(a, b, c, d)) <==> InRanges(a, b)
  {
    DottedStarts(a, b, c, d);
    if MappedTail(Dotted(a, b, c, d)).Some? {
      MappedStartsWithColon(Dotted(a, b, c, d));
    }
    AddressOfDotted(number, a, b, c, d);
    BlocksAreRanges(a, b, c * 0x100 + d);
  }

  lemma MappedWhole(m: Text, rest: Text)
    requires |m| == |MAPPED| && Lower(m) == MAPPED
    ensures MappedTail(m + rest) == Some(rest)
  {
    assert (m + rest)[..|MAPPED|] == m && (m + rest)[|MAPPED|..] == rest;
  }

  lemma HexPairParts(g: Text, h: Text)
    requires IsGroup(g) && IsGroup(h)
    ensures Split(g + [COLON] + h, COLON) == [g, h]
    ensures !IsDottedDigits(g + [COLON] + h)
  {
    assert COLON !in g && COLON !in h && DOT !in g && DOT !in h;
    SplitAcross(g, COLON, h);
    SplitWithout(g, COLON);
    SplitWithout(h, COLON);
    SplitWithout(g + [COLON] + h, DOT);
  }

  /** The IPv4-mapped forms (RFC 4291 section 2.5.5.2), with the prefix in either case: the hexadecimal one
      and the dotted one are blocked exactly when the plain IPv4 address is. */
  lemma MappedFormsAgree(number: Numeric, m: Text, g: Text, h: Text)
    requires |m| == |MAPPED| && Lower(m) == MAPPED && IsGroup(g) && IsGroup(h) && ReadsDecimals(number)
    ensures HexNumber(g) < 0x10000 && HexNumber(h) < 0x10000
    ensures var a, b, c, d := HexNumber(g) / 256, HexNumber(g) % 256, HexNumber(h) / 256, HexNumber(h) % 256;
      && (IsPrivateIp(number, m + (g + [COLON] + h)) <==> InRanges(a, b))
      && (IsPrivateIp(number, m + Dotted(a, b, c, d)) <==> InRanges(a, b))
      && (IsPrivateIp(number, Dotted(a, b, c, d)) <==> InRanges(a, b))
  {
    HexBound(g);
    HexBound(h);
    MappedHex(number, m, g, h);
    var a, b, c, d := HexNumber(g) / 256, HexNumber(g) % 256, HexNumber(h) / 256, HexNumber(h) % 256;
    MappedDotted(number, m, a, b, c, d);
    DottedIsPrivateIff(number, a, b, c, d);
  }

  lemma MappedHex(number: Numeric, m: Text, g: Text, h: Text)
    requires |m| == |MAPPED| && Lower(m) == MAPPED && IsGroup(g) && IsGroup(h)
    requires HexNumber(g) < 0x10000 && HexNumber(h) < 0x10000
    ensures var a, b, c, d := HexNumber(g) / 256, HexNumber(g) % 256, HexNumber(h) / 256, HexNumber(h) % 256;
      IsPrivateIp(number, m + (g + [COLON] + h)) == IsPrivateIp(number, Dotted(a, b, c, d))
  {
    MappedWhole(m, g + [COLON] + h);
    HexPairParts(g, h);
    Octets(HexNumber(g));
    Octets(HexNumber(h));
  }

  lemma MappedDotted(number: Numeric, m: Text, a: nat, b: nat, c: nat, d: nat)
    requires |m| == |MAPPED| && Lower(m) == MAPPED && a < 256 && b < 256 && c < 256 && d < 256
    ensures IsPrivateIp(number, m + Dotted(a, b, c, d)) == IsPrivateIp(number, Dotted(a, b, c, d))
  {
    MappedWhole(m, Dotted(a, b, c, d));
    DottedParts(a, b, c, d);
  }

  lemma {:induction false} SplitHead(x: Text, y: Text, sep: CodeUnit)
    requires sep !in x
    ensures x <= Split(x + y, sep)[0]
  {
    if x != [] {
      SplitHead(x[1..], y, sep);
      SplitStep(x[0], x[1..] + y, sep);
      assert [x[0]] + (x[1..] + y) == x + y;
      assert [x[0]] + x[1..] == x;
    }
  }

  lemma ColonIsNoIPv4(number: Numeric, g: Text, rest: Text)
    requires IsGroup(g) && ReadsDecimals(number)
    ensures Address(number, g + [COLON] + rest) == None
  {
    assert DOT !in g + [COLON];
    SplitHead(g + [COLON], rest, DOT);
    assert (g + [COLON]) + rest == g + [COLON] + rest;
    var part := Split(g + [COLON] + rest, DOT)[0];
    assert part[|g|] == COLON;
    assert !IsOctet(number, part);
  }

  lemma LowerHex(g: Text)
    requires AllHex(g)
    ensures AllHex(Lower(g)) && HexNumber(Lower(g)) == HexNumber(g)
  {
    if g != [] {
      LowerHex(g[..|g| - 1]);
      assert Lower(g)[..|g| - 1] == Lower(g[..|g| - 1]);
    }
  }

  lemma {:induction false} HexRunAll(t: Text)
    requires AllHex(t)
    ensures HexRun(t) == t
  {
    if t != [] {
      HexRunAll(t[1..]);
      assert t == [t[0]] + t[1..];
    }
  }

  /** Four hexadecimal digits read as themselves. */
  lemma ParseFour(t: Text)
    requires |t| == 4 && AllHex(t)
    ensures ParseHex(t) == Some(HexNumber(t))
  {
    HexRunAll(t);
    assert !IsSpace(t[0]) && t[0] != 43 && t[0] != 45 && t[1] != 120 && t[1] != 88;
  }

  /** Anything else in four units reads below 0x1000. */
  lemma ParseShort(t: Text)
    requires |t| <= 4 && !(|t| == 4 && AllHex(t)) && ParseHex(t).Some?
    ensures ParseHex(t).value < 0x1000
  {
    TrimStartShorter(t);
    var s := TrimStart(t);
    var unsigned := if s != [] && (s[0] == 43 || s[0] == 45) then s[1..] else s;
    var prefixed := |unsigned| > 1 && unsigned[0] == 48 && (unsigned[1] == 120 || unsigned[1] == 88);
    var digits := HexRun(if prefixed then unsigned[2..] else unsigned);
    assert |digits| <= 3;
    HexBound(digits);
  }

  /** fc00::/7 and fe80::/10 by the value of the first group. */
  predicate InLocalRanges(group: nat) {
    group / 512 == 0xfc00 / 512 || group / 64 == 0xfe80 / 64
  }

  const FC: Text := [102, 99]
  const FD: Text := [102, 100]

  function FirstFour(t: Text): Text {
    if |t| < 4 then t else t[..4]
  }

  lemma FirstFourOfGroup(g: Text, n: Text)
    requires IsGroup(g) && |n| > |g| && n[..|g|] == Lower(g) && n[|g|] == COLON
    ensures (var v := ParseHex(FirstFour(n)); v.Some? && 0xfe80 <= v.value <= 0xfebf)
      <==> (|g| == 4 && 0xfe80 <= HexNumber(g) <= 0xfebf)
  {
    LowerHex(g);
    if |g| == 4 {
      ParseFour(Lower(g));
    } else {
      assert FirstFour(n)[|g|] == COLON;
      if ParseHex(FirstFour(n)).Some? {
        ParseShort(FirstFour(n));
      }
    }
  }

  lemma StartsLikeGroup(g: Text, n: Text, p: Text)
    requires |p| == 2 && p[1] != COLON && 0 < |g| < |n| && n[..|g|] == g && n[|g|] == COLON
    ensures p <= n <==> p <= g
  {
    assert forall i :: 0 <= i < |g| ==> n[i] == n[..|g|][i];
  }

  lemma FirstGroup(g: Text, rest: Text)
    requires IsGroup(g)
    ensures IsBlockedIPv6(g + [COLON] + rest) <==>
      FC <= Lower(g) || FD <= Lower(g) || (|g| == 4 && 0xfe80 <= HexNumber(g) <= 0xfebf)
  {
    var n := Lower(g + [COLON] + rest);
    LowerHex(g);
    assert n[..|g|] == Lower(g) && n[|g|] == COLON;
    assert n[0] == Lower(g)[0] != COLON;
    FirstFourOfGroup(g, n);
    StartsLikeGroup(Lower(g), n, FC);
    StartsLikeGroup(Lower(g), n, FD);
  }

  lemma LeadingDigits(u: CodeUnit, v: CodeUnit)
    requires IsHex(u) && IsHex(v)
    ensures (HexValue(u) == 15 && HexValue(v) / 2 == 6) <==>
      LowerUnit(u) == 102 && (LowerUnit(v) == 99 || LowerUnit(v) == 100)
  { }

  lemma LocalDigits(g: Text)
    requires IsGroup(g)
    ensures InLocalRanges(HexNumber(g)) <==>
      |g| == 4 && (FC <= Lower(g) || FD <= Lower(g) || 0xfe80 <= HexNumber(g) <= 0xfebf)
  {
    HexBound(g);
    if |g| == 4 {
      LeadingDigits(g[0], g[1]);
      var n := HexNumber(g);
      var a, b := HexValue(g[0]), HexValue(g[1]);
      var low := HexValue(g[2]) * 0x10 + HexValue(g[3]);
      assert n == a * 0x1000 + b * 0x100 + low && low < 0x100;
      assert n / 512 == a * 8 + b / 2;
      assert Lower(g)[0] == LowerUnit(g[0]) && Lower(g)[1] == LowerUnit(g[1]);
      assert (FC <= Lower(g)) <==> (LowerUnit(g[0]) == 102 && LowerUnit(g[1]) == 99);
      assert (FD <= Lower(g)) <==> (LowerUnit(g[0]) == 102 && LowerUnit(g[1]) == 100);
    }
  }

  /** An address that starts with a group of digits is blocked when that group is in a local range, and
      besides only when the group is shorter than four digits and reads `fc` or `fd` at its start. */
  lemma IPv6IsPrivateIff(number: Numeric, g: Text, rest: Text)
    requires IsGroup(g) && ReadsDecimals(number)
    ensures IsPrivateIp(number, g + [COLON] + rest) <==>
      || InLocalRanges(HexNumber(g))
      || (|g| < 4 && (FC <= Lower(g) || FD <= Lower(g)))
  {
    var ip := g + [COLON] + rest;
    if MappedTail(ip).Some? {
      MappedStartsWithColon(ip);
    }
    ColonIsNoIPv4(number, g, rest);
    LowerHex(g);
    FirstGroup(g, rest);
    LocalDigits(g);
  }

  /** Of the addresses that begin with a colon and are not IPv4-mapped, only the loopback is blocked. */
  lemma ColonFirstIsPrivateIff(number: Numeric, ip: Text)
    requires ip != [] && ip[0] == COLON && ReadsDecimals(number)
    requires MappedTail(ip).Some? ==> !IsDottedDigits(MappedTail(ip).value) && !IsHexPair(MappedTail(ip).value)
    ensures IsPrivateIp(number, ip) <==> ip == LOOPBACK
  {
    SplitHead([COLON], ip[1..], DOT);
    assert [COLON] + ip[1..] == ip;
    var part := Split(ip, DOT)[0];
    assert part[0] == COLON;
    assert !IsOctet(number, part);
    NoHexAtColon(FirstFour(Lower(ip)));
    assert Lower(ip)[0] == COLON;
    assert Lower(ip) == LOOPBACK <==> ip == LOOPBACK by { LowerLoopback(ip); }
  }

  lemma NoHexAtColon(t: Text)
    requires t != [] && t[0] == COLON
    ensures ParseHex(t) == None
  {
    assert TrimStart(t) == t && HexRun(t) == [];
  }

  lemma LowerLoopback(ip: Text)
    ensures Lower(ip) == LOOPBACK <==> ip == LOOPBACK
  {
    if Lower(ip) == LOOPBACK {
      forall i | 0 <= i < |ip| ensures ip[i] == LOOPBACK[i] {
        assert LowerUnit(ip[i]) == LOOPBACK[i];
        assert i == 0 || i == 1 || i == 2;
      }
    }
  }

  /** `fc::` is blocked although its first group is outside fc00::/7. */
  lemma ShortGroupWitness(number: Numeric)
    requires ReadsDecimals(number)
    ensures IsPrivateIp(number, FC + [COLON] + [COLON]) && !InLocalRanges(HexNumber(FC))
  {
    IPv6IsPrivateIff(number, FC, [COLON]);
    assert Lower(FC) == FC;
    HexBound(FC);
  }
}
