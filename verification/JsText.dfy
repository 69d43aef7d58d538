/** JavaScript strings as the rest of the model needs them: sequences of UTF-16 code units,
    with `trim`, `split` and `join` for a one-unit separator. */
module JsText {
  newtype CodeUnit = x: int | 0 <= x < 0x10000

  type Text = seq<CodeUnit>

  datatype Option<+T> = None | Some(value: T)

  const NEWLINE: CodeUnit := 10
  const SPACE: CodeUnit := 32

  /** The code units removed by `String.prototype.trim` and matched by `\s`. */
  predicate IsSpace(u: CodeUnit) {
    || 9 <= u <= 13 || u == 32 || u == 0xA0 || u == 0x1680 || 0x2000 <= u <= 0x200A
    || u == 0x2028 || u == 0x2029 || u == 0x202F || u == 0x205F || u == 0x3000 || u == 0xFEFF
  }

  predicate IsHigh(u: CodeUnit) { 0xD800 <= u <= 0xDBFF }

  predicate IsLow(u: CodeUnit) { 0xDC00 <= u <= 0xDFFF }

  predicate StartsWithPair(t: Text) {
    |t| > 1 && IsHigh(t[0]) && IsLow(t[1])
  }

  ghost predicate Blank(t: Text) {
    forall i :: 0 <= i < |t| ==> IsSpace(t[i])
  }

  function TrimStart(t: Text): Text {
    if t != [] && IsSpace(t[0]) then TrimStart(t[1..]) else t
  }

  function TrimEnd(t: Text): Text {
    if t != [] && IsSpace(t[|t| - 1]) then TrimEnd(t[..|t| - 1]) else t
  }

  function Trim(t: Text): Text {
    TrimEnd(TrimStart(t))
  }

  /** Neither end of the text is blank. */
  ghost predicate Trimmed(t: Text) {
    t != [] ==> !IsSpace(t[0]) && !IsSpace(t[|t| - 1])
  }

  lemma {:induction false} TrimStartShape(t: Text) returns (lead: Text)
    ensures Blank(lead) && t == lead + TrimStart(t)
    ensures TrimStart(t) != [] ==> !IsSpace(TrimStart(t)[0])
  {
    if t != [] && IsSpace(t[0]) {
      var rest := TrimStartShape(t[1..]);
      lead := [t[0]] + rest;
      assert t == [t[0]] + t[1..];
      assert lead + TrimStart(t[1..]) == [t[0]] + (rest + TrimStart(t[1..]));
    } else {
      lead := [];
    }
  }

  lemma {:induction false} TrimEndShape(t: Text) returns (tail: Text)
    ensures Blank(tail) && t == TrimEnd(t) + tail
    ensures TrimEnd(t) != [] ==> !IsSpace(TrimEnd(t)[|TrimEnd(t)| - 1])
  {
    if t != [] && IsSpace(t[|t| - 1]) {
      var rest := TrimEndShape(t[..|t| - 1]);
      tail := rest + [t[|t| - 1]];
      assert t == t[..|t| - 1] + [t[|t| - 1]];
    } else {
      tail := [];
    }
  }

  /** `trim` splits a text into a blank lead, the trimmed core and a blank tail. */
  lemma TrimShape(t: Text) returns (lead: Text, tail: Text)
    ensures Blank(lead) && Blank(tail) && t == lead + Trim(t) + tail
    ensures Trimmed(Trim(t))
    ensures Trim(t) == [] <==> Blank(t)
  {
    lead := TrimStartShape(t);
    tail := TrimEndShape(TrimStart(t));
    assert TrimStart(t) == Trim(t) + tail;
    if Trim(t) != [] {
      assert Trim(t)[0] == TrimStart(t)[0];
      assert t[|lead|] == TrimStart(t)[0];
    }
  }

  /** `i` is the first, and `j` the last, position of `t` that is not blank. */
  ghost predicate CoreSpan(t: Text, i: int, j: int) {
    && 0 <= i <= j < |t| && !IsSpace(t[i]) && !IsSpace(t[j])
    && (forall k :: 0 <= k < i ==> IsSpace(t[k]))
    && (forall k :: j < k < |t| ==> IsSpace(t[k]))
  }

  lemma CoreSpanUnique(t: Text, i: int, j: int, k: int, l: int)
    requires CoreSpan(t, i, j) && CoreSpan(t, k, l)
    ensures i == k && j == l
  { }

  lemma PaddedCoreSpan(lead: Text, core: Text, tail: Text)
    requires Blank(lead) && Blank(tail) && Trimmed(core) && core != []
    ensures CoreSpan(lead + core + tail, |lead|, |lead| + |core| - 1)
    ensures core == (lead + core + tail)[|lead|..|lead| + |core|]
  {
    var t := lead + core + tail;
    forall k | 0 <= k < |lead| ensures IsSpace(t[k]) { assert t[k] == lead[k]; }
    forall k | |lead| + |core| <= k < |t| ensures IsSpace(t[k]) { assert t[k] == tail[k - |lead| - |core|]; }
    assert t[|lead|] == core[0];
    assert t[|lead| + |core| - 1] == core[|core| - 1];
  }

  /** The trimmed core does not depend on how much blank text surrounds it. */
  lemma TrimPadded(lead: Text, core: Text, tail: Text)
    requires Blank(lead) && Blank(tail) && Trimmed(core)
    ensures Trim(lead + core + tail) == core
  {
    var t := lead + core + tail;
    var l, r := TrimShape(t);
    if core == [] {
      assert Blank(t);
    } else {
      PaddedCoreSpan(lead, core, tail);
      PaddedCoreSpan(l, Trim(t), r);
      CoreSpanUnique(t, |lead|, |lead| + |core| - 1, |l|, |l| + |Trim(t)| - 1);
    }
  }

  lemma Regroup(a: Text, b: Text, c: Text, d: Text)
    ensures a + b + c + d == a + (b + (c + d))
  { }

  /** `text.split(sep)` for a one-unit separator. */
  function Split(t: Text, sep: CodeUnit): (parts: seq<Text>)
    ensures parts != []
    ensures forall i :: 0 <= i < |parts| ==> sep !in parts[i]
  {
    if t == [] then [[]]
    else
      var rest := Split(t[1..], sep);
      if t[0] == sep then [[]] + rest else [[t[0]] + rest[0]] + rest[1..]
  }

  /** `parts.join(sep)` for a one-unit separator. */
  function Join(parts: seq<Text>, sep: CodeUnit): Text {
    if parts == [] then []
    else if |parts| == 1 then parts[0]
    else parts[0] + [sep] + Join(parts[1..], sep)
  }

  lemma {:induction false} JoinSplit(t: Text, sep: CodeUnit)
    ensures Join(Split(t, sep), sep) == t
  {
    if t != [] {
      JoinSplit(t[1..], sep);
      var rest := Split(t[1..], sep);
      if t[0] == sep {
        assert ([[]] + rest)[1..] == rest;
      } else {
        assert ([[t[0]] + rest[0]] + rest[1..])[1..] == rest[1..];
      }
    }
  }

  /** Splitting a text at one occurrence of the separator concatenates the two splits. */
  lemma {:induction false} SplitAcross(a: Text, sep: CodeUnit, b: Text)
    ensures Split(a + [sep] + b, sep) == Split(a, sep) + Split(b, sep)
  {
    var t := a + [sep] + b;
    if a == [] {
      assert t[1..] == b;
    } else {
      SplitAcross(a[1..], sep, b);
      SplitStep(a[0], a[1..], sep);
      SplitStep(a[0], a[1..] + [sep] + b, sep);
      assert [a[0]] + a[1..] == a;
      assert [a[0]] + (a[1..] + [sep] + b) == t;
      PushUnitAppend(a[0], Split(a[1..], sep), Split(b, sep), sep);
    }
  }

  /** What one more leading unit does to a split. */
  function PushUnit(u: CodeUnit, parts: seq<Text>, sep: CodeUnit): seq<Text>
    requires parts != []
  {
    if u == sep then [[]] + parts else [[u] + parts[0]] + parts[1..]
  }

  lemma SplitStep(u: CodeUnit, t: Text, sep: CodeUnit)
    ensures Split([u] + t, sep) == PushUnit(u, Split(t, sep), sep)
  {
    assert ([u] + t)[1..] == t;
  }

  lemma PushUnitAppend(u: CodeUnit, x: seq<Text>, y: seq<Text>, sep: CodeUnit)
    requires x != []
    ensures PushUnit(u, x + y, sep) == PushUnit(u, x, sep) + y
  {
    assert (x + y)[0] == x[0] && (x + y)[1..] == x[1..] + y;
    ConsAppend(if u == sep then [] else [u] + x[0], if u == sep then x else x[1..], y);
  }

  lemma ConsAppend(first: Text, x: seq<Text>, y: seq<Text>)
    ensures [first] + (x + y) == [first] + x + y
  { }

  lemma {:induction false} SplitWithout(p: Text, sep: CodeUnit)
    requires sep !in p
    ensures Split(p, sep) == [p]
  {
    if p != [] {
      SplitWithout(p[1..], sep);
      assert p == [p[0]] + p[1..];
    }
  }

  lemma {:induction false} SplitJoin(parts: seq<Text>, sep: CodeUnit)
    requires parts != [] && forall i :: 0 <= i < |parts| ==> sep !in parts[i]
    ensures Split(Join(parts, sep), sep) == parts
  {
    SplitWithout(parts[0], sep);
    if |parts| > 1 {
      SplitJoin(parts[1..], sep);
      SplitAcross(parts[0], sep, Join(parts[1..], sep));
      assert parts == [parts[0]] + parts[1..];
    }
  }

  lemma {:induction false} JoinAcross(p: seq<Text>, q: seq<Text>, sep: CodeUnit)
    requires p != [] && q != []
    ensures Join(p + q, sep) == Join(p, sep) + [sep] + Join(q, sep)
  {
    if |p| == 1 {
      assert (p + q)[1..] == q;
    } else {
      assert (p + q)[1..] == p[1..] + q;
      JoinAcross(p[1..], q, sep);
    }
  }
}
