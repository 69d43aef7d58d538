/** `stableStringify`: serialization with object keys in code-unit order, and the decoder that
    shows it identifies exactly the values that differ in key order only. */
module CanonicalJson {
  import opened JsText
  import opened JsonText

  /** A JSON value. A number is represented by the numeral that `JSON.stringify` gives it; the
      members of an object come in the order in which the object lists them. */
  datatype Json =
    | Null
    | Bool(b: bool)
    | Num(numeral: Text)
    | Str(s: Text)
    | Arr(items: seq<Json>)
    | Obj(members: seq<Member>)

  datatype Member = Member(key: Text, value: Json)

  const LBRACE: CodeUnit := 123
  const RBRACE: CodeUnit := 125
  const COLON: CodeUnit := 58
  const NULL: Text := [110, 117, 108, 108]
  const TRUE: Text := [116, 114, 117, 101]
  const FALSE: Text := [102, 97, 108, 115, 101]

  /** The code units of numerals: digits, `+`, `-`, `.`, `E` and `e`. */
  predicate InNumeral(u: CodeUnit) {
    48 <= u <= 57 || u == 43 || u == 45 || u == 46 || u == 69 || u == 101
  }

  function Keys(members: seq<Member>): (keys: seq<Text>)
    ensures |keys| == |members|
    ensures forall i :: 0 <= i < |members| ==> keys[i] == members[i].key
  {
    seq(|members|, i requires 0 <= i < |members| => members[i].key)
  }

  ghost predicate DistinctKeys(keys: seq<Text>) {
    forall i, j :: 0 <= i < j < |keys| ==> keys[i] != keys[j]
  }

  ghost predicate WellFormed(v: Json) {
    match v
    case Num(n) => n != [] && forall i :: 0 <= i < |n| ==> InNumeral(n[i])
    case Arr(items) => forall i :: 0 <= i < |items| ==> WellFormed(items[i])
    case Obj(ms) => DistinctKeys(Keys(ms)) && forall i :: 0 <= i < |ms| ==> WellFormed(ms[i].value)
    case _ => true
  }

  // ---- Key order.

  /** The order of `Array.prototype.sort` on strings: by UTF-16 code units. */
  predicate Below(a: Text, b: Text) {
    if b == [] then false
    else if a == [] then true
    else a[0] < b[0] || (a[0] == b[0] && Below(a[1..], b[1..]))
  }

  /** The texts agree up to `n`, where `a` ends or has the smaller unit. */
  predicate LessAt(a: Text, b: Text, n: int) {
    0 <= n <= |a| && n < |b| && a[..n] == b[..n] && (n == |a| || a[n] < b[n])
  }

  ghost predicate Less(a: Text, b: Text) {
    exists n :: LessAt(a, b, n)
  }

  lemma {:induction false} BelowIff(a: Text, b: Text)
    ensures Below(a, b) <==> Less(a, b)
  {
    if a == [] {
      assert b != [] ==> LessAt(a, b, 0);
    } else if b != [] {
      BelowIff(a[1..], b[1..]);
      assert a[0] < b[0] ==> LessAt(a, b, 0);
      if n :| LessAt(a[1..], b[1..], n) {
        LessLater(a, b, n);
      }
      if n :| LessAt(a, b, n) {
        if n > 0 {
          assert a[..n][0] == b[..n][0];
          LessLater(a, b, n - 1);
        }
      }
    }
  }

  lemma LessLater(a: Text, b: Text, n: nat)
    requires a != [] && b != []
    ensures LessAt(a, b, n + 1) <==> a[0] == b[0] && LessAt(a[1..], b[1..], n)
  {
    if n < |a| && n < |b| {
      assert a[..n + 1] == [a[0]] + a[1..][..n] && b[..n + 1] == [b[0]] + b[1..][..n];
      assert a[1..][..n] == a[..n + 1][1..] && b[1..][..n] == b[..n + 1][1..];
    }
  }

  lemma {:induction false} BelowTrichotomy(a: Text, b: Text)
    ensures a == b || Below(a, b) || Below(b, a)
    ensures !(Below(a, b) && Below(b, a)) && !Below(a, a)
  {
    if a != [] && b != [] {
      BelowTrichotomy(a[1..], b[1..]);
      assert a == [a[0]] + a[1..] && b == [b[0]] + b[1..];
    }
    if a != [] {
      BelowTrichotomy(a[1..], a[1..]);
    }
  }

  lemma {:induction false} BelowTransitive(a: Text, b: Text, c: Text)
    requires Below(a, b) && Below(b, c)
    ensures Below(a, c)
  {
    if a != [] {
      if a[0] == b[0] == c[0] { BelowTransitive(a[1..], b[1..], c[1..]); }
    }
  }

  function InsertKey(k: Text, sorted: seq<Text>): (r: seq<Text>)
    ensures |r| == |sorted| + 1
    ensures forall x :: x in r <==> x == k || x in sorted
  {
    if sorted == [] || Below(k, sorted[0]) then [k] + sorted
    else
      assert sorted == [sorted[0]] + sorted[1..];
      [sorted[0]] + InsertKey(k, sorted[1..])
  }

  function SortKeys(keys: seq<Text>): (r: seq<Text>)
    ensures |r| == |keys|
    ensures forall x :: x in r <==> x in keys
  {
    if keys == [] then []
    else
      assert keys == [keys[0]] + keys[1..];
      InsertKey(keys[0], SortKeys(keys[1..]))
  }

  ghost predicate Ascending(keys: seq<Text>) {
    forall i, j :: 0 <= i < j < |keys| ==> Below(keys[i], keys[j])
  }

  lemma {:induction false} InsertAscending(k: Text, sorted: seq<Text>)
    requires Ascending(sorted) && k !in sorted
    ensures Ascending(InsertKey(k, sorted))
  {
    if sorted != [] {
      BelowTrichotomy(k, sorted[0]);
      var r := InsertKey(k, sorted);
      if Below(k, sorted[0]) {
        forall j | 0 < j < |r| ensures Below(k, r[j]) {
          if j > 1 { BelowTransitive(k, sorted[0], sorted[j - 1]); }
        }
      } else {
        InsertAscending(k, sorted[1..]);
        assert sorted == [sorted[0]] + sorted[1..];
        forall x | x in InsertKey(k, sorted[1..]) ensures Below(sorted[0], x) { }
      }
    }
  }

  lemma {:induction false} SortKeysAscending(keys: seq<Text>)
    requires DistinctKeys(keys)
    ensures Ascending(SortKeys(keys))
  {
    if keys != [] {
      SortKeysAscending(keys[1..]);
      assert keys == [keys[0]] + keys[1..];
      InsertAscending(keys[0], SortKeys(keys[1..]));
    }
  }

  lemma AscendingTail(a: seq<Text>, x: Text)
    requires Ascending(a) && a != []
    ensures x in a[1..] <==> x in a && x != a[0]
  {
    assert a == [a[0]] + a[1..];
    BelowTrichotomy(a[0], a[0]);
  }

  lemma {:induction false} AscendingUnique(a: seq<Text>, b: seq<Text>)
    requires Ascending(a) && Ascending(b) && forall x :: x in a <==> x in b
    ensures a == b
  {
    assert a != [] ==> a[0] in b;
    assert b != [] ==> b[0] in a;
    if a != [] && b != [] {
      BelowTrichotomy(a[0], b[0]);
      forall x ensures x in a[1..] <==> x in b[1..] {
        AscendingTail(a, x);
        AscendingTail(b, x);
      }
      AscendingUnique(a[1..], b[1..]);
    }
  }

  // ---- Serialization.

  function IndexOfKey(members: seq<Member>, key: Text): (i: nat)
    requires key in Keys(members)
    ensures i < |members| && members[i].key == key
  {
    if members[0].key == key then 0
    else
      assert Keys(members) == [members[0].key] + Keys(members[1..]);
      1 + IndexOfKey(members[1..], key)
  }

  /** `obj[key]`. */
  function Lookup(members: seq<Member>, key: Text): Json
    requires key in Keys(members)
  {
    members[IndexOfKey(members, key)].value
  }

  function StableStringify(v: Json): Text
    decreases v, if v.Obj? then |v.members| + 1 else 1
  {
    match v
    case Null => NULL
    case Bool(b) => if b then TRUE else FALSE
    case Num(n) => n
    case Str(s) => Quote(s)
    case Arr(items) => [LBRACKET] + StringifyItems(items) + [RBRACKET]
    case Obj(ms) => [LBRACE] + StringifyEntries(SortKeys(Keys(ms)), ms) + [RBRACE]
  }

  function StringifyItems(items: seq<Json>): Text
    decreases items, 0
  {
    if items == [] then []
    else if |items| == 1 then StableStringify(items[0])
    else StableStringify(items[0]) + [COMMA] + StringifyItems(items[1..])
  }

  function StringifyEntries(keys: seq<Text>, ms: seq<Member>): Text
    requires forall k :: k in keys ==> k in Keys(ms)
    decreases Obj(ms), |keys|
  {
    if keys == [] then []
    else
      var entry := Quote(keys[0]) + [COLON] + StableStringify(Lookup(ms, keys[0]));
      if |keys| == 1 then entry else entry + [COMMA] + StringifyEntries(keys[1..], ms)
  }

  // ---- Values up to key order.

  /** The two values differ at most in the order of object members, at any depth. */
  ghost predicate SameUpToKeyOrder(v: Json, w: Json) {
    match v
    case Arr(items) => w.Arr? && |items| == |w.items|
      && forall i :: 0 <= i < |items| ==> SameUpToKeyOrder(items[i], w.items[i])
    case Obj(ms) => w.Obj? && (forall k :: k in Keys(ms) <==> k in Keys(w.members))
      && forall k :: k in Keys(ms) ==> SameUpToKeyOrder(Lookup(ms, k), Lookup(w.members, k))
    case _ => v == w
  }

  /** The same value with the members of every object in key order. */
  function Normalize(v: Json): Json
    decreases v, if v.Obj? then |v.members| + 1 else 1
  {
    match v
    case Arr(items) => Arr(NormalizeItems(items))
    case Obj(ms) => Obj(NormalizeEntries(SortKeys(Keys(ms)), ms))
    case _ => v
  }

  function NormalizeItems(items: seq<Json>): (r: seq<Json>)
    ensures |r| == |items| && forall i :: 0 <= i < |items| ==> r[i] == Normalize(items[i])
    decreases items, 0
  {
    if items == [] then [] else [Normalize(items[0])] + NormalizeItems(items[1..])
  }

  function NormalizeEntries(keys: seq<Text>, ms: seq<Member>): (r: seq<Member>)
    requires forall k :: k in keys ==> k in Keys(ms)
    ensures |r| == |keys|
    ensures forall i :: 0 <= i < |keys| ==> r[i] == Member(keys[i], Normalize(Lookup(ms, keys[i])))
    decreases Obj(ms), |keys|
  {
    if keys == [] then []
    else [Member(keys[0], Normalize(Lookup(ms, keys[0])))] + NormalizeEntries(keys[1..], ms)
  }

  /** The normal form of an object has the object's own keys, in ascending order of code units. */
  lemma NormalKeysAscend(ms: seq<Member>)
    requires DistinctKeys(Keys(ms))
    ensures var keys := Keys(Normalize(Obj(ms)).members);
      && (forall k :: k in keys <==> k in Keys(ms))
      && forall i, j :: 0 <= i < j < |keys| ==> Less(keys[i], keys[j])
  {
    var sorted, keys := SortKeys(Keys(ms)), Keys(Normalize(Obj(ms)).members);
    SortKeysAscending(Keys(ms));
    assert keys == sorted;
    forall i, j | 0 <= i < j < |keys| ensures Less(keys[i], keys[j]) {
      assert Below(sorted[i], sorted[j]);
      BelowIff(sorted[i], sorted[j]);
    }
  }

  /** Two values have the same normal form exactly when they differ in key order only. */
  lemma {:induction false} NormalFormDecides(v: Json, w: Json)
    requires WellFormed(v) && WellFormed(w)
    ensures Normalize(v) == Normalize(w) <==> SameUpToKeyOrder(v, w)
    decreases v, 1
  {
    if v.Arr? && w.Arr? {
      ArraysDecide(v, w);
    } else if v.Obj? && w.Obj? {
      ObjectsDecide(v, w);
    }
  }

  lemma {:induction false} ArraysDecide(v: Json, w: Json)
    requires v.Arr? && w.Arr? && WellFormed(v) && WellFormed(w)
    ensures Normalize(v) == Normalize(w) <==> SameUpToKeyOrder(v, w)
    decreases v, 0
  {
    if |v.items| == |w.items| {
      forall i | 0 <= i < |v.items|
        ensures Normalize(v.items[i]) == Normalize(w.items[i]) <==> SameUpToKeyOrder(v.items[i], w.items[i])
      {
        NormalFormDecides(v.items[i], w.items[i]);
      }
      NormalItemsEqual(v.items, w.items);
    } else {
      assert |NormalizeItems(v.items)| != |NormalizeItems(w.items)|;
    }
  }

  lemma {:induction false} ObjectsDecide(v: Json, w: Json)
    requires v.Obj? && w.Obj? && WellFormed(v) && WellFormed(w)
    ensures Normalize(v) == Normalize(w) <==> SameUpToKeyOrder(v, w)
    decreases v, 0
  {
    forall k | k in Keys(v.members) && k in Keys(w.members)
      ensures Normalize(Lookup(v.members, k)) == Normalize(Lookup(w.members, k))
        <==> SameUpToKeyOrder(Lookup(v.members, k), Lookup(w.members, k))
    {
      LookupWellFormed(v, k);
      LookupWellFormed(w, k);
      NormalFormDecides(Lookup(v.members, k), Lookup(w.members, k));
    }
    NormalEntriesEqual(v.members, w.members);
    MembersDecide(v.members, w.members);
  }

  lemma MembersDecide(a: seq<Member>, b: seq<Member>)
    requires forall k :: k in Keys(a) && k in Keys(b) ==>
      (Normalize(Lookup(a, k)) == Normalize(Lookup(b, k)) <==> SameUpToKeyOrder(Lookup(a, k), Lookup(b, k)))
    ensures SameNormalMembers(a, b) <==> SameUpToKeyOrder(Obj(a), Obj(b))
  { }

  lemma LookupWellFormed(v: Json, k: Text)
    requires v.Obj? && WellFormed(v) && k in Keys(v.members)
    ensures WellFormed(Lookup(v.members, k)) && Lookup(v.members, k) < v
  { }

  lemma NormalItemsEqual(a: seq<Json>, b: seq<Json>)
    requires |a| == |b|
    ensures NormalizeItems(a) == NormalizeItems(b)
      <==> forall i :: 0 <= i < |a| ==> Normalize(a[i]) == Normalize(b[i])
  {
    var x, y := NormalizeItems(a), NormalizeItems(b);
    if x == y {
      forall i | 0 <= i < |a| ensures Normalize(a[i]) == Normalize(b[i]) {
        assert x[i] == y[i];
      }
    }
  }

  ghost predicate SameNormalMembers(a: seq<Member>, b: seq<Member>) {
    && (forall k :: k in Keys(a) <==> k in Keys(b))
    && (forall k :: k in Keys(a) ==> Normalize(Lookup(a, k)) == Normalize(Lookup(b, k)))
  }

  lemma NormalEntriesEqual(a: seq<Member>, b: seq<Member>)
    requires DistinctKeys(Keys(a)) && DistinctKeys(Keys(b))
    ensures NormalizeEntries(SortKeys(Keys(a)), a) == NormalizeEntries(SortKeys(Keys(b)), b)
      <==> SameNormalMembers(a, b)
  {
    if NormalizeEntries(SortKeys(Keys(a)), a) == NormalizeEntries(SortKeys(Keys(b)), b) {
      EntriesGiveMembers(a, b);
    }
    if SameNormalMembers(a, b) {
      MembersGiveEntries(a, b);
    }
  }

  lemma EntriesGiveMembers(a: seq<Member>, b: seq<Member>)
    requires NormalizeEntries(SortKeys(Keys(a)), a) == NormalizeEntries(SortKeys(Keys(b)), b)
    ensures SameNormalMembers(a, b)
  {
    var ka, kb := SortKeys(Keys(a)), SortKeys(Keys(b));
    var x, y := NormalizeEntries(ka, a), NormalizeEntries(kb, b);
    forall i | 0 <= i < |ka| ensures ka[i] == kb[i] { assert x[i] == y[i]; }
    assert ka == kb;
    forall k | k in Keys(a) ensures Normalize(Lookup(a, k)) == Normalize(Lookup(b, k)) {
      var i :| 0 <= i < |ka| && ka[i] == k;
      assert x[i] == y[i];
    }
  }

  lemma MembersGiveEntries(a: seq<Member>, b: seq<Member>)
    requires DistinctKeys(Keys(a)) && DistinctKeys(Keys(b)) && SameNormalMembers(a, b)
    ensures NormalizeEntries(SortKeys(Keys(a)), a) == NormalizeEntries(SortKeys(Keys(b)), b)
  {
    var ka, kb := SortKeys(Keys(a)), SortKeys(Keys(b));
    var x, y := NormalizeEntries(ka, a), NormalizeEntries(kb, b);
    SortKeysAscending(Keys(a));
    SortKeysAscending(Keys(b));
    AscendingUnique(ka, kb);
    forall i | 0 <= i < |ka| ensures x[i] == y[i] { assert ka[i] in Keys(a); }
  }
}
