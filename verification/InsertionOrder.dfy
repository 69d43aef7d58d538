/** The key order of a JavaScript `Map`: distinct keys in the order of their first insertion. */
module InsertionOrder {
  import opened JsText

  ghost predicate Distinct(order: seq<Text>) {
    forall i, j :: 0 <= i < j < |order| ==> order[i] != order[j]
  }

  /** `Map.delete`. */
  function Without(order: seq<Text>, key: Text): seq<Text> {
    if order == [] then []
    else (if order[0] == key then [] else [order[0]]) + Without(order[1..], key)
  }

  lemma DistinctCons(k: Text, rest: seq<Text>)
    requires Distinct(rest) && k !in rest
    ensures Distinct([k] + rest)
  { }

  lemma {:induction false} WithoutMembers(order: seq<Text>, key: Text)
    ensures forall x :: x in Without(order, key) <==> x in order && x != key
    ensures Distinct(order) ==> Distinct(Without(order, key))
    ensures |Without(order, key)| <= |order|
  {
    if order != [] {
      WithoutMembers(order[1..], key);
      assert order == [order[0]] + order[1..];
      if Distinct(order) && order[0] != key {
        assert order[0] !in order[1..];
        DistinctCons(order[0], Without(order[1..], key));
      }
    }
  }

  lemma {:induction false} KeysCounted(order: seq<Text>, keys: set<Text>)
    requires Distinct(order) && forall a :: a in order <==> a in keys
    ensures |order| == |keys|
  {
    if order != [] {
      var rest := order[1..];
      assert order == [order[0]] + rest;
      KeysCounted(rest, keys - {order[0]});
    } else {
      assert keys == {};
    }
  }
}
