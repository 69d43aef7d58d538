/** Hybrid search: reciprocal rank fusion of a text ranking and a vector ranking, over row ids. */
module RankFusion {
  import opened JsText
  import opened InsertionOrder

  const RRF_K := 60

  function Front<T>(s: seq<T>): seq<T>
    requires s != []
  {
    s[..|s| - 1]
  }

  function Last<T>(s: seq<T>): T
    requires s != []
  {
    s[|s| - 1]
  }

  /** What the place at index `i` of a ranking is worth. */
  function Worth(i: nat): real {
    1.0 / (RRF_K + i + 1) as real
  }

  /** What a whole ranking gives an id: the worth of each place that holds it. */
  function Gain(list: seq<Text>, id: Text): (r: real)
    ensures r >= 0.0
    ensures r > 0.0 <==> id in list
  {
    if list == [] then 0.0
    else Gain(Front(list), id) + if Last(list) == id then Worth(|list| - 1) else 0.0
  }

  function Score(fts: seq<Text>, vec: seq<Text>): Text -> real {
    (id: Text) => Gain(fts, id) + Gain(vec, id)
  }

  /** The keys of the `scores` map after a ranking went in. */
  function Extend(order: seq<Text>, list: seq<Text>): (r: seq<Text>)
    ensures forall id :: id in r <==> id in order || id in list
    ensures Distinct(order) ==> Distinct(r)
  {
    if list == [] then order
    else
      var before := Extend(order, Front(list));
      if Last(list) in before then before else before + [Last(list)]
  }

  /** A stable sort by non-increasing score, as `Array.prototype.sort` is required to be. */
  function SortByScore(ids: seq<Text>, score: Text -> real): seq<Text> {
    if ids == [] then [] else Insert(Last(ids), SortByScore(Front(ids), score), score)
  }

  function Insert(id: Text, sorted: seq<Text>, score: Text -> real): seq<Text> {
    if sorted == [] || score(Last(sorted)) >= score(id) then sorted + [id]
    else Insert(id, Front(sorted), score) + [Last(sorted)]
  }

  function Take(list: seq<Text>, limit: nat): seq<Text> {
    if |list| <= limit then list else list[..limit]
  }

  function Fused(fts: seq<Text>, vec: seq<Text>): seq<Text> {
    SortByScore(Extend(Extend([], fts), vec), Score(fts, vec))
  }

  function Found(fts: seq<Text>, vec: seq<Text>, limit: nat): seq<Text> {
    if fts == [] then Take(vec, limit)
    else if vec == [] then Take(fts, limit)
    else Take(Fused(fts, vec), limit)
  }

  /** One of the two loops that fill the map of scores. */
  method AddRanks(order: seq<Text>, scores: map<Text, real>, list: seq<Text>)
      returns (newOrder: seq<Text>, newScores: map<Text, real>)
    requires forall id :: id in scores <==> id in order
    ensures newOrder == Extend(order, list)
    ensures forall id :: id in newScores <==> id in newOrder
    ensures forall id :: id in newScores ==>
      newScores[id] == (if id in scores then scores[id] else 0.0) + Gain(list, id)
  {
    newOrder, newScores := order, scores;
    assert list[..0] == [];
    assert Gained(scores, newScores, []);
    for i := 0 to |list|
      invariant newOrder == Extend(order, list[..i])
      invariant forall id :: id in newScores <==> id in newOrder
      invariant Gained(scores, newScores, list[..i])
    {
      assert list[..i + 1] == list[..i] + [list[i]];
      assert Front(list[..i + 1]) == list[..i] && Last(list[..i + 1]) == list[i];
      var id := list[i];
      var rrfScore := 1.0 / (RRF_K + i + 1) as real;
      GainedSnoc(scores, newScores, list[..i], id);
      if id in newScores {
        newScores := newScores[id := newScores[id] + rrfScore];
      } else {
        newScores := newScores[id := rrfScore];
        newOrder := newOrder + [id];
      }
    }
    assert list[..|list|] == list;
  }

  /** `after` adds to the scores `before` what the ranking `seen` gives. */
  ghost predicate Gained(before: map<Text, real>, after: map<Text, real>, seen: seq<Text>) {
    && (forall id :: id in before || id in seen ==> id in after)
    && (forall id :: id in after ==> after[id] == (if id in before then before[id] else 0.0) + Gain(seen, id))
  }

  lemma GainedSnoc(before: map<Text, real>, after: map<Text, real>, seen: seq<Text>, id: Text)
    requires Gained(before, after, seen)
    ensures var score := (if id in after then after[id] else 0.0) + Worth(|seen|);
      Gained(before, after[id := score], seen + [id])
  {
    assert Front(seen + [id]) == seen && Last(seen + [id]) == id;
    forall x ensures Gain(seen + [id], x) == Gain(seen, x) + if x == id then Worth(|seen|) else 0.0 { }
    assert id !in after ==> Gain(seen, id) == 0.0;
  }

  method HybridSearch(ftsResults: seq<Text>, vecResults: seq<Text>, limit: nat) returns (r: seq<Text>)
    ensures r == Found(ftsResults, vecResults, limit)
  {
    if ftsResults == [] {
      return Take(vecResults, limit);
    }
    if vecResults == [] {
      return Take(ftsResults, limit);
    }
    var order, scores := AddRanks([], map[], ftsResults);
    order, scores := AddRanks(order, scores, vecResults);
    var byScore := (id: Text) => if id in scores then scores[id] else 0.0;
    assert forall id :: id in order ==> byScore(id) == Score(ftsResults, vecResults)(id);
    SortDependsOnScores(order, byScore, Score(ftsResults, vecResults));
    r := Take(SortByScore(order, byScore), limit);
  }

  lemma {:induction false} InsertShape(id: Text, sorted: seq<Text>, score: Text -> real) returns (k: nat)
    ensures k <= |sorted| && Insert(id, sorted, score) == sorted[..k] + [id] + sorted[k..]
    ensures k > 0 ==> score(sorted[k - 1]) >= score(id)
    ensures forall j :: k <= j < |sorted| ==> score(sorted[j]) < score(id)
  {
    if sorted == [] || score(Last(sorted)) >= score(id) {
      k := |sorted|;
    } else {
      k := InsertShape(id, Front(sorted), score);
      assert Front(sorted)[..k] == sorted[..k];
      assert Front(sorted)[k..] + [Last(sorted)] == sorted[k..];
    }
  }

  lemma {:induction false} InsertMembers(id: Text, sorted: seq<Text>, score: Text -> real)
    ensures |Insert(id, sorted, score)| == |sorted| + 1
    ensures forall x :: x in Insert(id, sorted, score) <==> x in sorted || x == id
  {
    if sorted != [] {
      InsertMembers(id, Front(sorted), score);
      assert sorted == Front(sorted) + [Last(sorted)];
    }
  }

  lemma {:induction false} SortMembers(ids: seq<Text>, score: Text -> real)
    ensures |SortByScore(ids, score)| == |ids|
    ensures forall id :: id in SortByScore(ids, score) <==> id in ids
  {
    if ids != [] {
      SortMembers(Front(ids), score);
      InsertMembers(Last(ids), SortByScore(Front(ids), score), score);
      assert ids == Front(ids) + [Last(ids)];
    }
  }

  lemma {:induction false} SortDependsOnScores(ids: seq<Text>, f: Text -> real, g: Text -> real)
    requires forall id :: id in ids ==> f(id) == g(id)
    ensures SortByScore(ids, f) == SortByScore(ids, g)
  {
    if ids != [] {
      SortDependsOnScores(Front(ids), f, g);
      SortMembers(Front(ids), f);
      InsertDependsOnScores(Last(ids), SortByScore(Front(ids), f), f, g);
    }
  }

  lemma {:induction false} InsertDependsOnScores(id: Text, sorted: seq<Text>, f: Text -> real, g: Text -> real)
    requires f(id) == g(id) && forall x :: x in sorted ==> f(x) == g(x)
    ensures Insert(id, sorted, f) == Insert(id, sorted, g)
  {
    if sorted != [] {
      InsertDependsOnScores(id, Front(sorted), f, g);
    }
  }

  ghost predicate Before(ids: seq<Text>, x: Text, y: Text) {
    exists p, q :: 0 <= p < q < |ids| && ids[p] == x && ids[q] == y
  }

  /** The order of the results: higher score first, ties by first appearance. */
  ghost predicate RanksBefore(ids: seq<Text>, score: Text -> real, x: Text, y: Text) {
    score(x) > score(y) || (score(x) == score(y) && Before(ids, x, y))
  }

  ghost predicate Ranked(ids: seq<Text>, score: Text -> real, sorted: seq<Text>) {
    forall i, j :: 0 <= i < j < |sorted| ==> RanksBefore(ids, score, sorted[i], sorted[j])
  }

  lemma BeforeGrows(ids: seq<Text>, x: Text, y: Text)
    requires ids != [] && Before(Front(ids), x, y)
    ensures Before(ids, x, y)
  {
    var p, q :| 0 <= p < q < |Front(ids)| && Front(ids)[p] == x && Front(ids)[q] == y;
    assert ids[p] == x && ids[q] == y;
  }

  /** The sort puts every pair in order. */
  lemma {:induction false} SortRanks(ids: seq<Text>, score: Text -> real)
    ensures Ranked(ids, score, SortByScore(ids, score))
  {
    if ids != [] {
      var sorted := SortByScore(Front(ids), score);
      SortRanks(Front(ids), score);
      SortMembers(Front(ids), score);
      var k := InsertShape(Last(ids), sorted, score);
      InsertedRanked(ids, score, sorted, k);
    }
  }

  lemma InsertedRanked(ids: seq<Text>, score: Text -> real, sorted: seq<Text>, k: nat)
    requires ids != [] && k <= |sorted| && Ranked(Front(ids), score, sorted)
    requires forall x :: x in sorted ==> x in Front(ids)
    requires k > 0 ==> score(sorted[k - 1]) >= score(Last(ids))
    requires forall j :: k <= j < |sorted| ==> score(sorted[j]) < score(Last(ids))
    ensures Ranked(ids, score, sorted[..k] + [Last(ids)] + sorted[k..])
  {
    var r := sorted[..k] + [Last(ids)] + sorted[k..];
    forall i, j | 0 <= i < j < |r| ensures RanksBefore(ids, score, r[i], r[j]) {
      var a, b := if i < k then i else i - 1, if j < k then j else j - 1;
      if j == k {
        InsertedLast(ids, score, sorted, k, i);
      } else if i == k {
        assert score(sorted[b]) < score(Last(ids));
      } else {
        OthersStayRanked(ids, score, sorted, a, b);
      }
    }
  }

  lemma OthersStayRanked(ids: seq<Text>, score: Text -> real, sorted: seq<Text>, a: nat, b: nat)
    requires ids != [] && Ranked(Front(ids), score, sorted) && a < b < |sorted|
    ensures RanksBefore(ids, score, sorted[a], sorted[b])
  {
    assert RanksBefore(Front(ids), score, sorted[a], sorted[b]);
    if Before(Front(ids), sorted[a], sorted[b]) {
      BeforeGrows(ids, sorted[a], sorted[b]);
    }
  }

  lemma InsertedLast(ids: seq<Text>, score: Text -> real, sorted: seq<Text>, k: nat, i: nat)
    requires ids != [] && i < k <= |sorted| && Ranked(Front(ids), score, sorted)
    requires score(sorted[k - 1]) >= score(Last(ids)) && sorted[i] in Front(ids)
    ensures RanksBefore(ids, score, sorted[i], Last(ids))
  {
    assert i < k - 1 ==> RanksBefore(Front(ids), score, sorted[i], sorted[k - 1]);
    var p :| 0 <= p < |Front(ids)| && Front(ids)[p] == sorted[i];
    assert ids[p] == sorted[i] && ids[|ids| - 1] == Last(ids);
  }

  /** The fused ranking: every id of either ranking once, a higher score first, ties by first appearance. */
  lemma FusedIsRanking(fts: seq<Text>, vec: seq<Text>)
    ensures Distinct(Fused(fts, vec))
    ensures forall id :: id in Fused(fts, vec) <==> id in fts || id in vec
    ensures Ranked(Extend(Extend([], fts), vec), Score(fts, vec), Fused(fts, vec))
  {
    var ids := Extend(Extend([], fts), vec);
    SortRanks(ids, Score(fts, vec));
    SortMembers(ids, Score(fts, vec));
    RankedDistinct(ids, Score(fts, vec), Fused(fts, vec));
  }

  lemma RankedDistinct(ids: seq<Text>, score: Text -> real, sorted: seq<Text>)
    requires Distinct(ids) && Ranked(ids, score, sorted)
    ensures Distinct(sorted)
  {
    forall i, j | 0 <= i < j < |sorted| ensures sorted[i] != sorted[j] {
      assert RanksBefore(ids, score, sorted[i], sorted[j]);
    }
  }

  lemma TakeKeepsBest(ids: seq<Text>, score: Text -> real, all: seq<Text>, limit: nat, x: Text, y: Text)
    requires Ranked(ids, score, all)
    requires x in Take(all, limit) && y in all && y !in Take(all, limit)
    ensures score(x) >= score(y)
  {
    var r := Take(all, limit);
    var i :| 0 <= i < |r| && r[i] == x;
    var j :| 0 <= j < |all| && all[j] == y;
    assert forall k {:trigger all[k]} :: 0 <= k < |r| ==> r[k] == all[k] && all[k] in r;
    assert RanksBefore(ids, score, all[i], all[j]);
  }

  lemma TakeFromRanking(ids: seq<Text>, score: Text -> real, all: seq<Text>, limit: nat)
    requires Ranked(ids, score, all) && Distinct(all)
    ensures Distinct(Take(all, limit)) && |Take(all, limit)| <= limit
    ensures forall id :: id in Take(all, limit) ==> id in all
    ensures |Take(all, limit)| < limit ==> Take(all, limit) == all
    ensures forall i, j :: 0 <= i < j < |Take(all, limit)| ==> score(Take(all, limit)[i]) >= score(Take(all, limit)[j])
  {
    var r := Take(all, limit);
    forall i, j | 0 <= i < j < |r| ensures score(r[i]) >= score(r[j]) {
      assert RanksBefore(ids, score, all[i], all[j]);
    }
  }

  /** A search that takes a shortcut is given a ranking without repetitions. */
  ghost predicate PlainShortcut(fts: seq<Text>, vec: seq<Text>) {
    fts == [] || vec == [] ==> Distinct(fts + vec)
  }

  lemma FoundIsFused(fts: seq<Text>, vec: seq<Text>, limit: nat)
    requires PlainShortcut(fts, vec)
    ensures Found(fts, vec, limit) == Take(Fused(fts, vec), limit)
  {
    if fts == [] || vec == [] {
      OneRankingFused(fts, vec);
      assert fts + vec == if vec == [] then fts else vec;
    }
  }

  /** What a search returns: distinct ids, as many as the limit allows, in order of score, and nothing it
      leaves out scores more than anything it returns. */
  lemma FoundIsBest(fts: seq<Text>, vec: seq<Text>, limit: nat)
    requires PlainShortcut(fts, vec)
    ensures var r := Found(fts, vec, limit);
      && Distinct(r) && |r| <= limit && (|r| < limit ==> forall id :: id in fts || id in vec ==> id in r)
      && (forall id :: id in r ==> id in fts || id in vec)
      && (forall i, j :: 0 <= i < j < |r| ==> Score(fts, vec)(r[i]) >= Score(fts, vec)(r[j]))
      && (forall x, y :: x in r && (y in fts || y in vec) && y !in r ==> Score(fts, vec)(x) >= Score(fts, vec)(y))
  {
    var ids, score := Extend(Extend([], fts), vec), Score(fts, vec);
    FoundIsFused(fts, vec, limit);
    FusedIsRanking(fts, vec);
    TakeFromRanking(ids, score, Fused(fts, vec), limit);
    forall x, y | x in Found(fts, vec, limit) && (y in fts || y in vec) && y !in Found(fts, vec, limit)
      ensures score(x) >= score(y)
    {
      TakeKeepsBest(ids, score, Fused(fts, vec), limit, x, y);
    }
  }

  lemma {:induction false} GainAt(list: seq<Text>, i: nat)
    requires Distinct(list) && i < |list|
    ensures Gain(list, list[i]) == Worth(i)
  {
    if i == |list| - 1 {
      assert list[i] !in Front(list);
    } else {
      GainAt(Front(list), i);
    }
  }

  lemma WorthFalls(i: nat, j: nat)
    requires i < j
    ensures Worth(i) > Worth(j)
  {
    var a, b := (RRF_K + i + 1) as real, (RRF_K + j + 1) as real;
    assert 0.0 < a < b;
    var u, v := 1.0 / a, 1.0 / b;
    assert u * a == 1.0 && v * b == 1.0 && v > 0.0;
    assert v * a < v * b;
    assert u * a > v * a;
  }

  /** The score of an id that both searches find: 1 / (60 + rank) from each, ranks counted from one. */
  lemma ScoreByRanks(fts: seq<Text>, vec: seq<Text>, i: nat, j: nat)
    requires Distinct(fts) && Distinct(vec) && i < |fts| && j < |vec| && fts[i] == vec[j]
    ensures Score(fts, vec)(fts[i]) == 1.0 / (61 + i) as real + 1.0 / (61 + j) as real
  {
    GainAt(fts, i);
    GainAt(vec, j);
  }

  /** Found at the same place by both searches, an id outranks what only one of them finds, even as its first,
      exactly up to rank 61. */
  lemma AgreementBeatsFirst(fts: seq<Text>, vec: seq<Text>, i: nat)
    requires Distinct(fts) && Distinct(vec) && 0 < i < |fts| && i < |vec| && fts[i] == vec[i]
    requires fts[0] !in vec
    ensures Score(fts, vec)(fts[i]) >= Score(fts, vec)(fts[0]) <==> i + 1 <= 62
    ensures Score(fts, vec)(fts[i]) > Score(fts, vec)(fts[0]) <==> i + 1 <= 61
  {
    ScoreByRanks(fts, vec, i, i);
    GainAt(fts, 0);
    Halves(61 + i);
  }

  lemma Halves(n: nat)
    requires n > 0
    ensures 1.0 / n as real + 1.0 / n as real >= 1.0 / 61.0 <==> n <= 122
    ensures 1.0 / n as real + 1.0 / n as real > 1.0 / 61.0 <==> n < 122
  {
    var x := n as real;
    var u := 1.0 / x;
    assert u * x == 1.0;
    if n < 122 {
      assert u * 122.0 > u * x;
    } else if n > 122 {
      assert u * 122.0 < u * x;
    }
  }

  /** The list places x ahead of y: an id it lacks is behind every id it has. */
  ghost predicate Ahead(list: seq<Text>, x: Text, y: Text) {
    x in list && (y in list ==> Before(list, x, y))
  }

  lemma AheadGainsMore(list: seq<Text>, x: Text, y: Text)
    requires Distinct(list) && Ahead(list, x, y) && x != y
    ensures Gain(list, x) > Gain(list, y)
  {
    if y in list {
      var p, q :| 0 <= p < q < |list| && list[p] == x && list[q] == y;
      GainAt(list, p);
      GainAt(list, q);
      WorthFalls(p, q);
    }
  }

  /** An id that is ahead of another in one ranking, and ahead of it in the other or absent there together
      with it, is ahead of it in the results, whatever the limit. */
  lemma AheadStaysAhead(fts: seq<Text>, vec: seq<Text>, limit: nat, x: Text, y: Text)
    requires Distinct(fts) && Distinct(vec) && x != y
    requires Ahead(fts, x, y) || (x !in fts && y !in fts && Ahead(vec, x, y))
    requires Ahead(vec, x, y) || (x !in vec && y !in vec && Ahead(fts, x, y))
    ensures y in Found(fts, vec, limit) ==> Before(Found(fts, vec, limit), x, y)
  {
    if y in Found(fts, vec, limit) {
      assert fts == [] || vec == [] ==> fts + vec == if vec == [] then fts else vec;
      FoundIsFused(fts, vec, limit);
      FusedIsRanking(fts, vec);
      if Ahead(fts, x, y) { AheadGainsMore(fts, x, y); }
      if Ahead(vec, x, y) { AheadGainsMore(vec, x, y); }
      TakeKeepsAhead(Extend(Extend([], fts), vec), Score(fts, vec), Fused(fts, vec), limit, x, y);
    }
  }

  lemma TakeKeepsAhead(ids: seq<Text>, score: Text -> real, all: seq<Text>, limit: nat, x: Text, y: Text)
    requires Ranked(ids, score, all) && x in all && score(x) > score(y) && y in Take(all, limit)
    ensures Before(Take(all, limit), x, y)
  {
    var r := Take(all, limit);
    var j :| 0 <= j < |r| && r[j] == y;
    assert all[j] == y;
    forall k | j < k < |all| ensures score(all[k]) <= score(y) {
      assert RanksBefore(ids, score, all[j], all[k]);
    }
    var i :| 0 <= i < |all| && all[i] == x;
    assert r[i] == x;
  }

  lemma {:induction false} ExtendDistinct(order: seq<Text>, list: seq<Text>)
    requires Distinct(order + list)
    ensures Extend(order, list) == order + list
  {
    if list != [] {
      assert order + list == (order + Front(list)) + [Last(list)];
      assert forall i :: 0 <= i < |order + Front(list)| ==> (order + Front(list))[i] == (order + list)[i];
      ExtendDistinct(order, Front(list));
      assert (order + list)[|order + list| - 1] == Last(list);
      assert Last(list) !in order + Front(list);
    } else {
      assert order + list == order;
    }
  }

  lemma {:induction false} SortKeepsRanked(ids: seq<Text>, score: Text -> real)
    requires forall i, j :: 0 <= i < j < |ids| ==> score(ids[i]) >= score(ids[j])
    ensures SortByScore(ids, score) == ids
  {
    if ids != [] {
      assert forall i :: 0 <= i < |Front(ids)| ==> Front(ids)[i] == ids[i];
      SortKeepsRanked(Front(ids), score);
      if |ids| > 1 {
        assert Last(Front(ids)) == ids[|ids| - 2];
      }
    }
  }

  lemma OneRankingFused(fts: seq<Text>, vec: seq<Text>)
    requires (fts == [] || vec == []) && Distinct(fts + vec)
    ensures Fused(fts, vec) == fts + vec
  {
    var list := fts + vec;
    assert list == if vec == [] then fts else vec;
    ExtendDistinct([], fts);
    ExtendDistinct(fts, vec);
    assert [] + fts == fts;
    forall i, j | 0 <= i < j < |list| ensures Score(fts, vec)(list[i]) >= Score(fts, vec)(list[j]) {
      GainAt(list, i);
      GainAt(list, j);
      WorthFalls(i, j);
    }
    SortKeepsRanked(list, Score(fts, vec));
  }

  /** The two shortcuts return what fusion with the empty ranking would, exactly for a ranking without
      repetitions: fusion drops a repeated id, the shortcut returns it again. */
  lemma ShortcutIsFusionIff(list: seq<Text>)
    ensures (forall limit: nat :: Found(list, [], limit) == Take(Fused(list, []), limit)) <==> Distinct(list)
    ensures (forall limit: nat :: Found([], list, limit) == Take(Fused([], list), limit)) <==> Distinct(list)
  {
    assert list + [] == list && [] + list == list;
    FusedIsRanking(list, []);
    FusedIsRanking([], list);
    if Distinct(list) {
      OneRankingFused(list, []);
      OneRankingFused([], list);
    }
    var limit := |list| + |Fused(list, [])| + |Fused([], list)|;
    assert Found(list, [], limit) == list && Take(Fused(list, []), limit) == Fused(list, []);
    assert Found([], list, limit) == list && Take(Fused([], list), limit) == Fused([], list);
  }
}
