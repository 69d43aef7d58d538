/** UTF-16 text as Unicode scalar values, and scalar values as UTF-8 bytes (RFC 3629 section 3). */
module Utf8 {
  import opened JsText

  newtype Byte = x: int | 0 <= x < 0x100

  type Scalar = c: int | 0 <= c < 0xD800 || 0xE000 <= c < 0x110000

  const REPLACEMENT: Scalar := 0xFFFD

  /** The scalar values of a text; a lone surrogate reads as U+FFFD, as `Buffer.from` reads it. */
  function Scalars(t: Text): seq<Scalar> {
    if t == [] then []
    else if IsHigh(t[0]) && |t| > 1 && IsLow(t[1]) then
      [0x10000 + (t[0] as int - 0xD800) * 0x400 + (t[1] as int - 0xDC00)] + Scalars(t[2..])
    else if IsHigh(t[0]) || IsLow(t[0]) then [REPLACEMENT] + Scalars(t[1..])
    else [t[0] as int] + Scalars(t[1..])
  }

  function Units(c: Scalar): Text {
    if c < 0x10000 then [c as CodeUnit]
    else [(0xD800 + (c - 0x10000) / 0x400) as CodeUnit, (0xDC00 + (c - 0x10000) % 0x400) as CodeUnit]
  }

  function Utf16(cs: seq<Scalar>): Text {
    Flatten(Units, cs)
  }

  function Flatten<T, U>(piece: T -> seq<U>, items: seq<T>): seq<U> {
    if items == [] then [] else piece(items[0]) + Flatten(piece, items[1..])
  }

  lemma RegroupThree<T>(a: seq<T>, b: seq<T>, c: seq<T>)
    ensures a + (b + c) == a + b + c
  { }

  lemma {:induction false} FlattenAppend<T, U>(piece: T -> seq<U>, a: seq<T>, b: seq<T>)
    ensures Flatten(piece, a + b) == Flatten(piece, a) + Flatten(piece, b)
  {
    if a == [] {
      assert a + b == b;
    } else {
      FlattenAppend(piece, a[1..], b);
      assert (a + b)[1..] == a[1..] + b;
      RegroupThree(piece(a[0]), Flatten(piece, a[1..]), Flatten(piece, b));
    }
  }

  lemma {:induction false} ScalarsOfUtf16(cs: seq<Scalar>)
    ensures Scalars(Utf16(cs)) == cs
  {
    if cs != [] {
      ScalarsOfUtf16(cs[1..]);
      var rest := Utf16(cs[1..]);
      assert (Units(cs[0]) + rest)[|Units(cs[0])|..] == rest;
    }
  }

  /** Every surrogate stands in a pair. */
  ghost predicate WellFormed(t: Text) {
    && (forall i :: 0 <= i < |t| && IsHigh(t[i]) ==> i + 1 < |t| && IsLow(t[i + 1]))
    && (forall i :: 0 <= i < |t| && IsLow(t[i]) ==> 0 < i && IsHigh(t[i - 1]))
  }

  lemma WellFormedCons(head: Text, rest: Text)
    requires |head| == 1 && !IsHigh(head[0]) && !IsLow(head[0])
    ensures WellFormed(head + rest) <==> WellFormed(rest)
  {
    var t := head + rest;
    assert forall i :: 0 <= i < |rest| ==> rest[i] == t[i + 1];
    if WellFormed(t) {
      forall i | 0 <= i < |rest| && IsHigh(rest[i]) ensures i + 1 < |rest| && IsLow(rest[i + 1]) {
        assert IsHigh(t[i + 1]);
      }
      forall i | 0 <= i < |rest| && IsLow(rest[i]) ensures 0 < i && IsHigh(rest[i - 1]) {
        assert IsLow(t[i + 1]) && IsHigh(t[i]);
      }
    }
  }

  lemma WellFormedPair(head: Text, rest: Text)
    requires |head| == 2 && IsHigh(head[0]) && IsLow(head[1])
    ensures WellFormed(head + rest) <==> WellFormed(rest)
  {
    var t := head + rest;
    forall i | 0 <= i < |rest| ensures rest[i] == t[i + 2] { }
    if WellFormed(t) {
      forall i | 0 <= i < |rest| && IsHigh(rest[i]) ensures i + 1 < |rest| && IsLow(rest[i + 1]) {
        assert IsHigh(t[i + 2]);
      }
      forall i | 0 <= i < |rest| && IsLow(rest[i]) ensures 0 < i && IsHigh(rest[i - 1]) {
        assert IsLow(t[i + 2]) && IsHigh(t[i + 1]);
      }
    }
    if WellFormed(rest) {
      forall i | 0 <= i < |t| && IsHigh(t[i]) ensures i + 1 < |t| && IsLow(t[i + 1]) {
        if i >= 2 { assert IsHigh(rest[i - 2]); }
      }
      forall i | 0 <= i < |t| && IsLow(t[i]) ensures 0 < i && IsHigh(t[i - 1]) {
        if i >= 2 { assert IsLow(rest[i - 2]); }
      }
    }
  }

  lemma PairUnits(h: CodeUnit, l: CodeUnit)
    requires IsHigh(h) && IsLow(l)
    ensures Units(0x10000 + (h as int - 0xD800) * 0x400 + (l as int - 0xDC00)) == [h, l]
  { }

  lemma SameTail(head: Text, a: Text, b: Text)
    ensures head + a == head + b <==> a == b
  {
    assert (head + a)[|head|..] == a && (head + b)[|head|..] == b;
  }

  /** The conversion loses nothing exactly when no surrogate stands alone. */
  lemma {:induction false} Utf16OfScalars(t: Text)
    ensures Utf16(Scalars(t)) == t <==> WellFormed(t)
  {
    if t == [] {
    } else if IsHigh(t[0]) && |t| > 1 && IsLow(t[1]) {
      PairUnits(t[0], t[1]);
      Utf16OfScalars(t[2..]);
      WellFormedPair(t[..2], t[2..]);
      assert t == t[..2] + t[2..] && t[..2] == [t[0], t[1]];
      assert Scalars(t)[1..] == Scalars(t[2..]);
      assert Utf16(Scalars(t)) == t[..2] + Utf16(Scalars(t[2..]));
      SameTail(t[..2], Utf16(Scalars(t[2..])), t[2..]);
    } else if IsHigh(t[0]) || IsLow(t[0]) {
      assert Utf16(Scalars(t))[0] == REPLACEMENT as CodeUnit;
    } else {
      Utf16OfScalars(t[1..]);
      WellFormedCons(t[..1], t[1..]);
      assert t == t[..1] + t[1..] && t[..1] == [t[0]];
      assert Scalars(t)[1..] == Scalars(t[1..]);
      assert Utf16(Scalars(t)) == t[..1] + Utf16(Scalars(t[1..]));
      SameTail(t[..1], Utf16(Scalars(t[1..])), t[1..]);
    }
  }

  lemma Utf16Append(a: seq<Scalar>, b: seq<Scalar>)
    ensures Utf16(a + b) == Utf16(a) + Utf16(b)
  {
    FlattenAppend(Units, a, b);
  }

  function Width(c: Scalar): nat {
    if c < 0x80 then 1 else if c < 0x800 then 2 else if c < 0x10000 then 3 else 4
  }

  function EncodeOne(c: Scalar): (r: seq<Byte>)
    ensures |r| == Width(c)
    ensures !IsContinuation(r[0]) && forall i :: 0 < i < |r| ==> IsContinuation(r[i])
  {
    if c < 0x80 then [c as Byte]
    else if c < 0x800 then [(0xC0 + c / 64) as Byte, Tail(c)]
    else if c < 0x10000 then [(0xE0 + c / 4096) as Byte, Tail(c / 64), Tail(c)]
    else [(0xF0 + c / 262144) as Byte, Tail(c / 4096), Tail(c / 64), Tail(c)]
  }

  /** The continuation byte that carries the low six bits of `c`. */
  function Tail(c: nat): Byte {
    (0x80 + c % 64) as Byte
  }

  /** The source's test `(b & 0xc0) === 0x80`. */
  predicate IsContinuation(b: Byte) {
    b / 64 == 2
  }

  lemma MaskTest(b: bv8)
    ensures (b & 0xc0 == 0x80) <==> IsContinuation((b as int) as Byte)
  {
    assert (b & 0xc0 == 0x80) <==> 0x80 <= b < 0xc0;
  }

  function Encode(cs: seq<Scalar>): seq<Byte> {
    Flatten(EncodeOne, cs)
  }

  /** `Buffer.byteLength(text, "utf-8")`. */
  function ByteLength(t: Text): nat {
    |Encode(Scalars(t))|
  }

  /** The scalar value at the head of a text, and how many units it takes. */
  function Head(t: Text): Scalar
    requires t != []
  {
    if StartsWithPair(t) then 0x10000 + (t[0] as int - 0xD800) * 0x400 + (t[1] as int - 0xDC00)
    else if IsHigh(t[0]) || IsLow(t[0]) then REPLACEMENT
    else t[0] as int
  }

  lemma ScalarsHead(t: Text, n: nat, rest: Text)
    requires t != [] && n == (if StartsWithPair(t) then 2 else 1) && t[n..] == rest
    ensures Scalars(t) == [Head(t)] + Scalars(rest)
  { }

  lemma HeadAcross(a: Text, b: Text, n: nat)
    requires a != [] && !IsHigh(a[|a| - 1]) && n == if StartsWithPair(a) then 2 else 1
    ensures StartsWithPair(a + b) == StartsWithPair(a) && Head(a + b) == Head(a)
    ensures n <= |a| && (a + b)[n..] == a[n..] + b
    ensures a[n..] == [] || !IsHigh(a[n..][|a[n..]| - 1])
  { }

  /** A cut after anything but the first half of a pair leaves both sides as they are. */
  lemma {:induction false} ScalarsAppend(a: Text, b: Text)
    requires a == [] || !IsHigh(a[|a| - 1])
    ensures Scalars(a + b) == Scalars(a) + Scalars(b)
    decreases |a|
  {
    if a == [] {
      assert a + b == b;
    } else {
      var n := if StartsWithPair(a) then 2 else 1;
      HeadAcross(a, b, n);
      ScalarsAppend(a[n..], b);
      ScalarsHead(a, n, a[n..]);
      ScalarsHead(a + b, n, a[n..] + b);
      RegroupThree([Head(a)], Scalars(a[n..]), Scalars(b));
    }
  }

  lemma ByteLengthAppend(a: Text, b: Text)
    requires a == [] || !IsHigh(a[|a| - 1])
    ensures ByteLength(a + b) == ByteLength(a) + ByteLength(b)
  {
    ScalarsAppend(a, b);
    FlattenAppend(EncodeOne, Scalars(a), Scalars(b));
  }

  /** The scalar value at the head of the bytes, or nothing if they are malformed there. */
  function DecodeOne(bs: seq<Byte>): Option<Scalar> {
    if bs == [] then None
    else
      var b := bs[0] as int;
      if b < 0x80 then Some(b)
      else if b < 0xC0 then None
      else if b < 0xE0 then
        if |bs| < 2 || !IsContinuation(bs[1]) then None
        else Checked((b - 0xC0) * 64 + Six(bs[1]), 2)
      else if b < 0xF0 then
        if |bs| < 3 || !IsContinuation(bs[1]) || !IsContinuation(bs[2]) then None
        else Checked((b - 0xE0) * 4096 + Six(bs[1]) * 64 + Six(bs[2]), 3)
      else
        if |bs| < 4 || !IsContinuation(bs[1]) || !IsContinuation(bs[2]) || !IsContinuation(bs[3]) then None
        else Checked((b - 0xF0) * 262144 + Six(bs[1]) * 4096 + Six(bs[2]) * 64 + Six(bs[3]), 4)
  }

  function Six(b: Byte): int {
    (b % 64) as int
  }

  /** Refuses overlong forms, surrogates and values above U+10FFFF. */
  function Checked(c: nat, width: nat): Option<Scalar> {
    if (c < 0xD800 || 0xE000 <= c < 0x110000) && Width(c) == width then Some(c) else None
  }

  function Decode(bs: seq<Byte>): Option<seq<Scalar>> {
    if bs == [] then Some([])
    else
      var head := DecodeOne(bs);
      if head.None? || Width(head.value) > |bs| then None
      else
        var rest := Decode(bs[Width(head.value)..]);
        if rest.None? then None else Some([head.value] + rest.value)
  }

  lemma Sixes(c: nat, high: nat, s: nat)
    requires s < 64
    ensures c == high * 64 + s <==> c / 64 == high && c % 64 == s
  { }

  lemma TailSix(c: nat, b: Byte)
    requires IsContinuation(b)
    ensures Tail(c) == b <==> Six(b) == c % 64
    ensures 0 <= Six(b) < 64
  {
    assert b == 128 + b % 64;
  }

  lemma Over64(c: nat)
    ensures c / 4096 == c / 64 / 64
  { }

  lemma Digits(c: nat)
    ensures c == c / 64 * 64 + c % 64
    ensures c == c / 4096 * 4096 + c / 64 % 64 * 64 + c % 64
    ensures c == c / 262144 * 262144 + c / 4096 % 64 * 4096 + c / 64 % 64 * 64 + c % 64
  {
    var d := c / 64;
    var e := d / 64;
    Over64(c);
    Over64(d);
    assert c == d * 64 + c % 64 && d == e * 64 + d % 64 && e == e / 64 * 64 + e % 64;
    assert e / 64 == c / 262144;
  }

  lemma TailReads(c: nat)
    ensures IsContinuation(Tail(c)) && Six(Tail(c)) == c % 64
  { }

  lemma DecodeOneReads(c: Scalar, rest: seq<Byte>)
    ensures DecodeOne(EncodeOne(c) + rest) == Some(c)
  {
    var bs := EncodeOne(c) + rest;
    assert bs[..Width(c)] == EncodeOne(c);
    Digits(c);
    TailReads(c);
    TailReads(c / 64);
    TailReads(c / 4096);
    if c < 0x80 {
      assert bs[0] == c as Byte;
    } else if c < 0x800 {
      assert bs[0] == (0xC0 + c / 64) as Byte && bs[1] == Tail(c);
    } else if c < 0x10000 {
      assert bs[0] == (0xE0 + c / 4096) as Byte && bs[1] == Tail(c / 64) && bs[2] == Tail(c);
    } else {
      assert bs[0] == (0xF0 + c / 262144) as Byte;
      assert bs[1] == Tail(c / 4096) && bs[2] == Tail(c / 64) && bs[3] == Tail(c);
    }
  }

  lemma TwoWrites(bs: seq<Byte>, c: Scalar)
    requires |bs| >= 2 && 0xC0 <= bs[0] as int < 0xE0 && IsContinuation(bs[1])
    requires c == (bs[0] as int - 0xC0) * 64 + Six(bs[1]) && Width(c) == 2
    ensures EncodeOne(c) == bs[..2]
  {
    TailSix(c, bs[1]);
    Sixes(c, bs[0] as int - 0xC0, Six(bs[1]));
  }

  lemma ThreeWrites(bs: seq<Byte>, c: Scalar)
    requires |bs| >= 3 && 0xE0 <= bs[0] as int < 0xF0 && IsContinuation(bs[1]) && IsContinuation(bs[2])
    requires c == (bs[0] as int - 0xE0) * 4096 + Six(bs[1]) * 64 + Six(bs[2]) && Width(c) == 3
    ensures EncodeOne(c) == bs[..3]
  {
    var high := (bs[0] as int - 0xE0) * 64 + Six(bs[1]);
    TailSix(c, bs[2]);
    TailSix(c / 64, bs[1]);
    Sixes(c, high, Six(bs[2]));
    Sixes(high, bs[0] as int - 0xE0, Six(bs[1]));
  }

  lemma FourWrites(bs: seq<Byte>, c: Scalar)
    requires |bs| >= 4 && 0xF0 <= bs[0] as int
    requires IsContinuation(bs[1]) && IsContinuation(bs[2]) && IsContinuation(bs[3])
    requires c == (bs[0] as int - 0xF0) * 262144 + Six(bs[1]) * 4096 + Six(bs[2]) * 64 + Six(bs[3]) && Width(c) == 4
    ensures EncodeOne(c) == bs[..4]
  {
    var mid := (bs[0] as int - 0xF0) * 64 + Six(bs[1]);
    var high := mid * 64 + Six(bs[2]);
    TailSix(c, bs[3]);
    TailSix(c / 64, bs[2]);
    TailSix(c / 4096, bs[1]);
    Sixes(c, high, Six(bs[3]));
    Sixes(high, mid, Six(bs[2]));
    Sixes(mid, bs[0] as int - 0xF0, Six(bs[1]));
  }

  lemma EncodeOneWrites(bs: seq<Byte>)
    requires DecodeOne(bs).Some?
    ensures Width(DecodeOne(bs).value) <= |bs|
    ensures EncodeOne(DecodeOne(bs).value) == bs[..Width(DecodeOne(bs).value)]
  {
    var c := DecodeOne(bs).value;
    var b := bs[0] as int;
    if b < 0x80 {
      assert EncodeOne(c) == [bs[0]];
    } else if b < 0xE0 {
      TwoWrites(bs, c);
    } else if b < 0xF0 {
      ThreeWrites(bs, c);
    } else {
      FourWrites(bs, c);
    }
  }

  lemma {:induction false} DecodedIsEncoded(bs: seq<Byte>)
    requires Decode(bs).Some?
    ensures bs == Encode(Decode(bs).value)
    decreases |bs|
  {
    if bs != [] {
      DecodeHead(bs);
      EncodeOneWrites(bs);
      var c := DecodeOne(bs).value;
      var rest := bs[Width(c)..];
      DecodedIsEncoded(rest);
      Rejoin(bs, c, Decode(rest).value);
    }
  }

  lemma Rejoin(bs: seq<Byte>, c: Scalar, cs: seq<Scalar>)
    requires Width(c) <= |bs| && EncodeOne(c) == bs[..Width(c)] && bs[Width(c)..] == Encode(cs)
    ensures bs == Encode([c] + cs)
  {
    EncodeCons(c, cs);
    assert bs == bs[..Width(c)] + bs[Width(c)..];
  }

  lemma DecodeHead(bs: seq<Byte>)
    requires bs != [] && Decode(bs).Some?
    ensures DecodeOne(bs).Some? && Width(DecodeOne(bs).value) <= |bs|
    ensures var rest := Decode(bs[Width(DecodeOne(bs).value)..]);
      rest.Some? && Decode(bs).value == [DecodeOne(bs).value] + rest.value
  { }

  lemma EncodeCons(c: Scalar, cs: seq<Scalar>)
    ensures Encode([c] + cs) == EncodeOne(c) + Encode(cs)
  {
    assert ([c] + cs)[1..] == cs;
  }

  lemma {:induction false} EncodedDecodes(cs: seq<Scalar>)
    ensures Decode(Encode(cs)) == Some(cs)
  {
    if cs != [] {
      EncodedDecodes(cs[1..]);
      DecodeOneReads(cs[0], Encode(cs[1..]));
      var bs := EncodeOne(cs[0]) + Encode(cs[1..]);
      assert Encode(cs) == bs && bs[Width(cs[0])..] == Encode(cs[1..]);
      assert cs == [cs[0]] + cs[1..];
    }
  }

  /** The strict decoder inverts the encoder, and accepts nothing but encodings. */
  lemma DecodeIffEncoded(bs: seq<Byte>, cs: seq<Scalar>)
    ensures Decode(bs) == Some(cs) <==> bs == Encode(cs)
  {
    if Decode(bs) == Some(cs) {
      DecodedIsEncoded(bs);
    }
    EncodedDecodes(cs);
  }

  lemma EncodeAppend(a: seq<Scalar>, b: seq<Scalar>)
    ensures Encode(a + b) == Encode(a) + Encode(b)
  {
    FlattenAppend(EncodeOne, a, b);
  }
}
