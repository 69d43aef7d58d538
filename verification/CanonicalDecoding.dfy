/** A decoder for the output of `stableStringify`. Decoding what was written yields the normal
    form, so equal output means equal up to key order. */
module CanonicalDecoding {
  import opened JsText
  import opened JsonText
  import opened CanonicalJson

  predicate HasPrefix(t: Text, p: Text) {
    |p| <= |t| && t[..|p|] == p
  }

  function Expect(t: Text, word: Text, v: Json): (d: Decoded<Json>)
    requires word != []
    ensures d.Got? ==> |d.rest| < |t|
  {
    if HasPrefix(t, word) then Got(v, t[|word|..]) else Failed
  }

  function NumeralLength(t: Text): (n: nat)
    ensures n <= |t|
  {
    if t != [] && InNumeral(t[0]) then 1 + NumeralLength(t[1..]) else 0
  }

  function ParseValue(t: Text): (d: Decoded<Json>)
    ensures d.Got? ==> |d.rest| < |t|
    decreases |t|, 0
  {
    if t == [] then Failed
    else if t[0] == DQUOTE then
      var d := Unquote(t);
      if d.Got? then Got(Str(d.value), d.rest) else Failed
    else if t[0] == LBRACKET then
      if |t| > 1 && t[1] == RBRACKET then Got(Arr([]), t[2..])
      else
        var d := ParseItems(t[1..]);
        if d.Got? then Got(Arr(d.value), d.rest) else Failed
    else if t[0] == LBRACE then
      if |t| > 1 && t[1] == RBRACE then Got(Obj([]), t[2..])
      else
        var d := ParseMembers(t[1..]);
        if d.Got? then Got(Obj(d.value), d.rest) else Failed
    else if t[0] == NULL[0] then Expect(t, NULL, Null)
    else if t[0] == TRUE[0] then Expect(t, TRUE, Bool(true))
    else if t[0] == FALSE[0] then Expect(t, FALSE, Bool(false))
    else
      var n := NumeralLength(t);
      if n > 0 then Got(Num(t[..n]), t[n..]) else Failed
  }

  /** The elements of an array up to and including the closing bracket. */
  function ParseItems(t: Text): (d: Decoded<seq<Json>>)
    ensures d.Got? ==> |d.rest| < |t|
    decreases |t|, 1
  {
    var first := ParseValue(t);
    if first.Failed? || first.rest == [] then Failed
    else if first.rest[0] == RBRACKET then Got([first.value], first.rest[1..])
    else if first.rest[0] != COMMA then Failed
    else
      var more := ParseItems(first.rest[1..]);
      if more.Got? then Got([first.value] + more.value, more.rest) else Failed
  }

  /** The members of an object up to and including the closing brace. */
  function ParseMembers(t: Text): (d: Decoded<seq<Member>>)
    ensures d.Got? ==> |d.rest| < |t|
    decreases |t|, 1
  {
    var key := Unquote(t);
    if key.Failed? || key.rest == [] || key.rest[0] != COLON then Failed
    else
      var v := ParseValue(key.rest[1..]);
      if v.Failed? || v.rest == [] then Failed
      else if v.rest[0] == RBRACE then Got([Member(key.value, v.value)], v.rest[1..])
      else if v.rest[0] != COMMA then Failed
      else
        var more := ParseMembers(v.rest[1..]);
        if more.Got? then Got([Member(key.value, v.value)] + more.value, more.rest) else Failed
  }

  // ---- Decoding undoes serialization.

  /** What may follow a value: nothing that could extend a numeral. */
  predicate Delimited(rest: Text) {
    rest == [] || !InNumeral(rest[0])
  }

  lemma {:induction false} NumeralMeasured(n: Text, rest: Text)
    requires (forall i :: 0 <= i < |n| ==> InNumeral(n[i])) && Delimited(rest)
    ensures NumeralLength(n + rest) == |n|
  {
    if n == [] {
      assert n + rest == rest;
    } else {
      NumeralMeasured(n[1..], rest);
      assert (n + rest)[1..] == n[1..] + rest;
    }
  }

  lemma WordDecodes(word: Text, v: Json, rest: Text)
    requires word != []
    ensures Expect(word + rest, word, v) == Got(v, rest)
  {
    assert (word + rest)[..|word|] == word && (word + rest)[|word|..] == rest;
  }

  lemma NumeralDecodes(n: Text, rest: Text)
    requires n != [] && (forall i :: 0 <= i < |n| ==> InNumeral(n[i])) && Delimited(rest)
    ensures ParseValue(n + rest) == Got(Num(n), rest)
  {
    var t := n + rest;
    NumeralMeasured(n, rest);
    assert InNumeral(t[0]);
    assert t[..|n|] == n && t[|n|..] == rest;
  }

  /** A serialized value does not begin with a closing bracket. */
  lemma FirstUnit(v: Json)
    requires WellFormed(v)
    ensures StableStringify(v) != [] && StableStringify(v)[0] != RBRACKET && StableStringify(v)[0] != RBRACE
  {
    if v.Num? { assert InNumeral(v.numeral[0]); }
  }

  lemma StringDecodes(s: Text, rest: Text)
    ensures ParseValue(Quote(s) + rest) == Got(Str(s), rest)
  {
    QuoteRoundTrip(s, rest);
  }

  lemma ArrayStep(t: Text, d: Decoded<seq<Json>>)
    requires t != [] && t[0] != RBRACKET && d == ParseItems(t) && d.Got?
    ensures ParseValue([LBRACKET] + t) == Got(Arr(d.value), d.rest)
  {
    assert ([LBRACKET] + t)[1..] == t;
  }

  lemma ObjectStep(t: Text, d: Decoded<seq<Member>>)
    requires t != [] && t[0] != RBRACE && d == ParseMembers(t) && d.Got?
    ensures ParseValue([LBRACE] + t) == Got(Obj(d.value), d.rest)
  {
    assert ([LBRACE] + t)[1..] == t;
  }

  lemma EmptyDecodes(rest: Text)
    ensures ParseValue([LBRACKET] + [RBRACKET] + rest) == Got(Arr([]), rest)
    ensures ParseValue([LBRACE] + [RBRACE] + rest) == Got(Obj([]), rest)
  {
    assert ([LBRACKET] + [RBRACKET] + rest)[2..] == rest;
    assert ([LBRACE] + [RBRACE] + rest)[2..] == rest;
  }

  lemma ItemStep(t: Text, v: Json, mark: CodeUnit, rest: Text)
    requires ParseValue(t) == Got(v, [mark] + rest)
    ensures mark == RBRACKET ==> ParseItems(t) == Got([v], rest)
    ensures mark == COMMA && ParseItems(rest).Got? ==>
      ParseItems(t) == Got([v] + ParseItems(rest).value, ParseItems(rest).rest)
  {
    assert ([mark] + rest)[1..] == rest;
  }

  lemma MemberStep(t: Text, key: Text, inner: Text, v: Json, mark: CodeUnit, rest: Text)
    requires Unquote(t) == Got(key, [COLON] + inner) && ParseValue(inner) == Got(v, [mark] + rest)
    ensures mark == RBRACE ==> ParseMembers(t) == Got([Member(key, v)], rest)
    ensures mark == COMMA && ParseMembers(rest).Got? ==>
      ParseMembers(t) == Got([Member(key, v)] + ParseMembers(rest).value, ParseMembers(rest).rest)
  {
    assert ([COLON] + inner)[1..] == inner && ([mark] + rest)[1..] == rest;
  }

  lemma MemberReads(key: Text, s: Text, v: Json, mark: CodeUnit, rest: Text)
    requires ParseValue(s + ([mark] + rest)) == Got(v, [mark] + rest)
    ensures var t := Quote(key) + ([COLON] + (s + ([mark] + rest)));
      && (mark == RBRACE ==> ParseMembers(t) == Got([Member(key, v)], rest))
      && (mark == COMMA && ParseMembers(rest).Got? ==>
          ParseMembers(t) == Got([Member(key, v)] + ParseMembers(rest).value, ParseMembers(rest).rest))
  {
    var inner := s + ([mark] + rest);
    QuoteRoundTrip(key, [COLON] + inner);
    MemberStep(Quote(key) + ([COLON] + inner), key, inner, v, mark, rest);
  }

  lemma AtomRoundTrip(v: Json, rest: Text)
    requires WellFormed(v) && Delimited(rest) && !v.Arr? && !v.Obj?
    ensures ParseValue(StableStringify(v) + rest) == Got(Normalize(v), rest)
  {
    match v
    case Null => WordDecodes(NULL, Null, rest);
    case Bool(b) => WordDecodes(if b then TRUE else FALSE, v, rest);
    case Num(n) => NumeralDecodes(n, rest);
    case Str(s) => StringDecodes(s, rest);
  }

  /** Decoding the serialization of `v` gives the normal form of `v` and leaves what follows. */
  lemma {:induction false} RoundTrip(v: Json, rest: Text)
    requires WellFormed(v) && Delimited(rest)
    ensures ParseValue(StableStringify(v) + rest) == Got(Normalize(v), rest)
    decreases v, if v.Obj? then |v.members| + 2 else 2
  {
    if v.Arr? {
      ArrayRoundTrip(v, rest);
    } else if v.Obj? {
      ObjectRoundTrip(v, rest);
    } else {
      AtomRoundTrip(v, rest);
    }
  }

  lemma {:induction false} ArrayRoundTrip(v: Json, rest: Text)
    requires v.Arr? && WellFormed(v)
    ensures ParseValue(StableStringify(v) + rest) == Got(Normalize(v), rest)
    decreases v, 1
  {
    if v.items == [] {
      EmptyDecodes(rest);
      assert StableStringify(v) + rest == [LBRACKET] + [RBRACKET] + rest;
    } else {
      ItemsRoundTrip(v.items, [RBRACKET] + rest);
      ArrayText(v, rest);
      var t := StringifyItems(v.items) + ([RBRACKET] + rest);
      ArrayStep(t, ParseItems(t));
    }
  }

  lemma ArrayText(v: Json, tail: Text)
    requires v.Arr? && v.items != [] && WellFormed(v)
    ensures StableStringify(v) + tail == [LBRACKET] + (StringifyItems(v.items) + ([RBRACKET] + tail))
    ensures StringifyItems(v.items) != [] && StringifyItems(v.items)[0] != RBRACKET
  {
    FirstUnit(v.items[0]);
  }

  lemma ObjectText(v: Json, tail: Text)
    requires v.Obj?
    ensures StableStringify(v) + tail
      == [LBRACE] + (StringifyEntries(SortKeys(Keys(v.members)), v.members) + ([RBRACE] + tail))
  { }

  lemma {:induction false} ObjectRoundTrip(v: Json, rest: Text)
    requires v.Obj? && WellFormed(v)
    ensures ParseValue(StableStringify(v) + rest) == Got(Normalize(v), rest)
    decreases v, |v.members| + 1
  {
    var keys := SortKeys(Keys(v.members));
    if keys == [] {
      EmptyDecodes(rest);
      assert StableStringify(v) + rest == [LBRACE] + [RBRACE] + rest;
    } else {
      EntriesRoundTrip(keys, v.members, [RBRACE] + rest);
      var t := StringifyEntries(keys, v.members) + ([RBRACE] + rest);
      ObjectText(v, rest);
      ObjectStep(t, ParseMembers(t));
    }
  }

  lemma ItemsUnfold(items: seq<Json>, tail: Text)
    requires |items| > 1
    ensures StringifyItems(items) + tail
      == StableStringify(items[0]) + ([COMMA] + (StringifyItems(items[1..]) + tail))
  {
    Regroup(StableStringify(items[0]), [COMMA], StringifyItems(items[1..]), tail);
  }

  lemma {:induction false} ItemsRoundTrip(items: seq<Json>, tail: Text)
    requires items != [] && forall i :: 0 <= i < |items| ==> WellFormed(items[i])
    requires tail != [] && tail[0] == RBRACKET
    ensures ParseItems(StringifyItems(items) + tail) == Got(NormalizeItems(items), tail[1..])
    decreases items, 0
  {
    var t := StringifyItems(items) + tail;
    if |items| == 1 {
      RoundTrip(items[0], tail);
      assert tail == [RBRACKET] + tail[1..];
      ItemStep(t, Normalize(items[0]), RBRACKET, tail[1..]);
      assert NormalizeItems(items) == [Normalize(items[0])];
    } else {
      var more := StringifyItems(items[1..]) + tail;
      ItemsRoundTrip(items[1..], tail);
      RoundTrip(items[0], [COMMA] + more);
      ItemsUnfold(items, tail);
      assert NormalizeItems(items) == [Normalize(items[0])] + NormalizeItems(items[1..]);
      ItemStep(t, Normalize(items[0]), COMMA, more);
    }
  }

  lemma EntryUnfold(keys: seq<Text>, ms: seq<Member>, tail: Text)
    requires keys != [] && forall k :: k in keys ==> k in Keys(ms)
    ensures var after := if |keys| == 1 then tail else [COMMA] + (StringifyEntries(keys[1..], ms) + tail);
      StringifyEntries(keys, ms) + tail
      == Quote(keys[0]) + ([COLON] + (StableStringify(Lookup(ms, keys[0])) + after))
    ensures NormalizeEntries(keys, ms)
      == [Member(keys[0], Normalize(Lookup(ms, keys[0])))] + NormalizeEntries(keys[1..], ms)
  {
    var key, value := Quote(keys[0]), StableStringify(Lookup(ms, keys[0]));
    if |keys| == 1 {
      Regroup(key, [COLON], value, tail);
    } else {
      var more := StringifyEntries(keys[1..], ms);
      Regroup(key + [COLON] + value, [COMMA], more, tail);
      Regroup(key, [COLON], value, [COMMA] + (more + tail));
    }
  }

  lemma {:induction false} EntriesRoundTrip(keys: seq<Text>, ms: seq<Member>, tail: Text)
    requires keys != [] && WellFormed(Obj(ms)) && forall k :: k in keys ==> k in Keys(ms)
    requires tail != [] && tail[0] == RBRACE
    ensures ParseMembers(StringifyEntries(keys, ms) + tail) == Got(NormalizeEntries(keys, ms), tail[1..])
    decreases Obj(ms), |keys|
  {
    var v := Lookup(ms, keys[0]);
    LookupWellFormed(Obj(ms), keys[0]);
    EntryUnfold(keys, ms, tail);
    var t := StringifyEntries(keys, ms) + tail;
    if |keys| == 1 {
      RoundTrip(v, tail);
      assert tail == [RBRACE] + tail[1..];
      MemberReads(keys[0], StableStringify(v), Normalize(v), RBRACE, tail[1..]);
      assert NormalizeEntries(keys, ms) == [Member(keys[0], Normalize(v))];
    } else {
      var more := StringifyEntries(keys[1..], ms) + tail;
      EntriesRoundTrip(keys[1..], ms, tail);
      RoundTrip(v, [COMMA] + more);
      MemberReads(keys[0], StableStringify(v), Normalize(v), COMMA, more);
    }
  }

  // ---- Canonical form.

  lemma {:induction false} StringifyNormalizes(v: Json, w: Json)
    requires WellFormed(v) && WellFormed(w) && SameUpToKeyOrder(v, w)
    ensures StableStringify(v) == StableStringify(w)
    decreases v, 1
  {
    match v
    case Arr(items) => ItemsAlike(items, w.items);
    case Obj(ms) =>
      SortKeysAscending(Keys(ms));
      SortKeysAscending(Keys(w.members));
      AscendingUnique(SortKeys(Keys(ms)), SortKeys(Keys(w.members)));
      EntriesAlike(SortKeys(Keys(ms)), ms, w.members);
    case _ =>
  }

  lemma {:induction false} ItemsAlike(a: seq<Json>, b: seq<Json>)
    requires |a| == |b|
    requires forall i :: 0 <= i < |a| ==> WellFormed(a[i]) && WellFormed(b[i]) && SameUpToKeyOrder(a[i], b[i])
    ensures StringifyItems(a) == StringifyItems(b)
    decreases a, 0
  {
    if a != [] {
      StringifyNormalizes(a[0], b[0]);
      ItemsAlike(a[1..], b[1..]);
    }
  }

  lemma {:induction false} EntriesAlike(keys: seq<Text>, a: seq<Member>, b: seq<Member>)
    requires WellFormed(Obj(a)) && WellFormed(Obj(b))
    requires forall k :: k in keys ==> k in Keys(a) && k in Keys(b) && SameUpToKeyOrder(Lookup(a, k), Lookup(b, k))
    ensures StringifyEntries(keys, a) == StringifyEntries(keys, b)
    decreases Obj(a), 0, |keys|
  {
    if keys != [] {
      LookupWellFormed(Obj(a), keys[0]);
      LookupWellFormed(Obj(b), keys[0]);
      StringifyNormalizes(Lookup(a, keys[0]), Lookup(b, keys[0]));
      EntriesAlike(keys[1..], a, b);
    }
  }

  /** `stableStringify` gives the same text exactly for values that differ in key order only. */
  lemma CanonicalForm(v: Json, w: Json)
    requires WellFormed(v) && WellFormed(w)
    ensures StableStringify(v) == StableStringify(w) <==> SameUpToKeyOrder(v, w)
  {
    if StableStringify(v) == StableStringify(w) {
      RoundTrip(v, []);
      RoundTrip(w, []);
      NormalFormDecides(v, w);
    }
    if SameUpToKeyOrder(v, w) {
      StringifyNormalizes(v, w);
    }
  }
}
