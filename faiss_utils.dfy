/** The pure fallback `IndexFlatIP` of rag_agent/utils/faiss_utils.py: an
    append-only list of vectors searched by brute-force inner product. */
module FaissUtils {
  import opened Strings

  type Vector = seq<real>

  /** `sum(qi * vi for qi, vi in zip(q, v))`: the inner product over the shorter
      of the two vectors. */
  function Dot(q: Vector, v: Vector): real
    decreases |q|
  {
    if q == [] || v == [] then 0.0 else q[0] * v[0] + Dot(q[1..], v[1..])
  }

  /** A query against the zero vector scores 0 with every stored vector. */
  lemma {:induction false} DotWithZeros(q: Vector, v: Vector)
    requires forall i :: 0 <= i < |q| ==> q[i] == 0.0
    ensures Dot(q, v) == 0.0
    decreases |q|
  {
    if q != [] && v != [] {
      DotWithZeros(q[1..], v[1..]);
    }
  }

  /** The `sims` list of `search`: one score per stored vector. */
  function Similarities(q: Vector, vectors: seq<Vector>): (sims: seq<real>)
    ensures |sims| == |vectors|
  {
    seq(|vectors|, i requires 0 <= i < |vectors| => Dot(q, vectors[i]))
  }

  // ------------------------------------------------------------- ranking

  /** Position `a` comes before position `b` in a stable sort by descending score:
      a higher score first, and equal scores in ascending position order. */
  predicate Before(sims: seq<real>, a: nat, b: nat)
    requires a < |sims| && b < |sims|
  {
    sims[a] > sims[b] || (sims[a] == sims[b] && a < b)
  }

  predicate InRange(sims: seq<real>, order: seq<nat>) {
    forall j :: 0 <= j < |order| ==> order[j] < |sims|
  }

  /** Every earlier entry comes before every later one (so no entry is repeated). */
  predicate SortedBy(sims: seq<real>, order: seq<nat>)
    requires InRange(sims, order)
  {
    forall i, j :: 0 <= i < j < |order| ==> Before(sims, order[i], order[j])
  }

  function Insert(sims: seq<real>, order: seq<nat>, x: nat): (r: seq<nat>)
    requires x < |sims| && InRange(sims, order) && SortedBy(sims, order) && x !in order
    ensures |r| == |order| + 1
    ensures forall y :: y in r <==> y in order || y == x
    ensures InRange(sims, r) && SortedBy(sims, r)
    decreases |order|
  {
    if order == [] then [x]
    else if Before(sims, order[0], x) then
      SortedTail(sims, order);
      var rest := Insert(sims, order[1..], x);
      assert forall j :: 0 <= j < |rest| ==> Before(sims, order[0], rest[j]) by {
        forall j | 0 <= j < |rest|
          ensures Before(sims, order[0], rest[j])
        {
          assert rest[j] in order[1..] || rest[j] == x;
        }
      }
      SortedCons(sims, order[0], rest);
      [order[0]] + rest
    else
      SortedCons(sims, x, order);
      [x] + order
  }

  lemma SortedTail(sims: seq<real>, order: seq<nat>)
    requires order != [] && InRange(sims, order) && SortedBy(sims, order)
    ensures InRange(sims, order[1..]) && SortedBy(sims, order[1..])
  {
    assert forall j :: 0 <= j < |order| - 1 ==> order[1..][j] == order[j + 1];
  }

  function RankPrefix(sims: seq<real>, n: nat): (order: seq<nat>)
    requires n <= |sims|
    ensures |order| == n
    ensures forall p: int :: p in order <==> 0 <= p < n
    ensures InRange(sims, order) && SortedBy(sims, order)
  {
    if n == 0 then [] else Insert(sims, RankPrefix(sims, n - 1), n - 1)
  }

  /** `sorted(range(len(sims)), key=lambda i: sims[i], reverse=True)`: every
      position once, in stable descending score order. */
  function Ranking(sims: seq<real>): (order: seq<nat>)
    ensures |order| == |sims|
    ensures forall p: int :: p in order <==> 0 <= p < |sims|
    ensures InRange(sims, order) && SortedBy(sims, order)
  {
    RankPrefix(sims, |sims|)
  }

  /** A sorted order starts with the entry that comes before all the others. */
  lemma FirstComesBefore(sims: seq<real>, a: seq<nat>, p: nat)
    requires InRange(sims, a) && SortedBy(sims, a)
    requires p in a
    ensures p == a[0] || Before(sims, a[0], p)
  {
    var i :| 0 <= i < |a| && a[i] == p;
    if i > 0 {
      assert Before(sims, a[0], a[i]);
    }
  }

  lemma SameEntriesBothEmpty<T>(a: seq<T>, b: seq<T>)
    requires forall p :: p in a <==> p in b
    ensures a == [] <==> b == []
  {
    if a != [] {
      assert a[0] in a;
    }
    if b != [] {
      assert b[0] in b;
    }
  }

  /** Two orders sorted by `Before` over the same positions are equal. */
  lemma {:induction false} SortedOrdersAgree(sims: seq<real>, a: seq<nat>, b: seq<nat>)
    requires InRange(sims, a) && SortedBy(sims, a)
    requires InRange(sims, b) && SortedBy(sims, b)
    requires forall p :: p in a <==> p in b
    ensures a == b
    decreases |a|
  {
    SameEntriesBothEmpty(a, b);
    if a != [] {
      assert a[0] in b && b[0] in a;
      FirstComesBefore(sims, a, b[0]);
      FirstComesBefore(sims, b, a[0]);
      assert a[0] == b[0];
      forall p
        ensures p in a[1..] <==> p in b[1..]
      {
        if p in a[1..] {
          var i :| 1 <= i < |a| && a[i] == p;
          assert Before(sims, a[0], a[i]);
          assert p in b;
        }
        if p in b[1..] {
          var j :| 1 <= j < |b| && b[j] == p;
          assert Before(sims, b[0], b[j]);
          assert p in a;
        }
      }
      assert SortedBy(sims, a[1..]) by {
        assert forall i :: 0 <= i < |a| - 1 ==> a[1..][i] == a[i + 1];
      }
      assert SortedBy(sims, b[1..]) by {
        assert forall i :: 0 <= i < |b| - 1 ==> b[1..][i] == b[i + 1];
      }
      SortedOrdersAgree(sims, a[1..], b[1..]);
    }
  }

  /** Any stable descending sort of the positions (Python's `sorted` is one) yields
      exactly `Ranking(sims)`. */
  lemma RankingIsTheStableSort(sims: seq<real>, order: seq<nat>)
    requires InRange(sims, order) && SortedBy(sims, order)
    requires forall p: int :: p in order <==> 0 <= p < |sims|
    ensures order == Ranking(sims)
  {
    SortedOrdersAgree(sims, order, Ranking(sims));
  }

  // ----------------------------------------------------------- one row

  lemma FillSnoc<T>(x: T, n: nat)
    ensures Fill(x, n + 1) == Fill(x, n) + [x]
  {
  }

  /** The positions `search` reports for one query before padding: `order[:k]`. */
  function Top(sims: seq<real>, k: int): (top: seq<nat>)
    ensures InRange(sims, top)
  {
    SliceTo(Ranking(sims), k)
  }

  /** The index row `search` returns for one query. */
  function RowIds(sims: seq<real>, k: int): seq<int> {
    var top := Top(sims, k);
    top + Fill<int>(-1, k - |top|)
  }

  /** `[sims[i] for i in order]` */
  function ScoresAt(sims: seq<real>, order: seq<nat>): (scores: seq<real>)
    requires InRange(sims, order)
    ensures |scores| == |order|
    ensures forall j :: 0 <= j < |order| ==> scores[j] == sims[order[j]]
  {
    seq(|order|, j requires 0 <= j < |order| => sims[order[j]])
  }

  /** The score row `search` returns for one query. */
  function RowScores(sims: seq<real>, k: int): seq<real> {
    var top := Top(sims, k);
    ScoresAt(sims, top) + Fill(0.0, k - |top|)
  }

  /** Both rows have the same length, `k` entries for `k >= 0`. The first
      `min(k, n)` entries (`max(0, n + k)` for a negative `k`, the way a Python
      slice counts) are distinct stored positions with their scores; the rest are
      the sentinel `(0.0, -1)`. An empty index yields only sentinels. */
  lemma RowLayout(sims: seq<real>, k: int)
    ensures var ids, scores, m := RowIds(sims, k), RowScores(sims, k), |Top(sims, k)|;
      && |ids| == |scores|
      && (k >= 0 ==> |ids| == k)
      && m == (if k >= 0 then (if k <= |sims| then k else |sims|)
               else if |sims| + k >= 0 then |sims| + k else 0)
      && (forall j :: 0 <= j < m ==> 0 <= ids[j] < |sims| && scores[j] == sims[ids[j]])
      && (forall i, j :: 0 <= i < j < m ==> ids[i] != ids[j])
      && (forall j :: m <= j < |ids| ==> ids[j] == -1 && scores[j] == 0.0)
  {
    var top := Top(sims, k);
    var ranking := Ranking(sims);
    assert forall i, j :: 0 <= i < j < |top| ==> top[i] == ranking[i] && top[j] == ranking[j];
  }

  /** The reported scores never increase, and equal scores keep ascending
      position order: the descending sort is stable. */
  lemma RowOrder(sims: seq<real>, k: int)
    ensures var ids, scores, m := RowIds(sims, k), RowScores(sims, k), |Top(sims, k)|;
      forall i, j :: 0 <= i < j < m ==>
        scores[i] >= scores[j] && (scores[i] == scores[j] ==> ids[i] < ids[j])
  {
    var top := Top(sims, k);
    var ranking := Ranking(sims);
    assert forall i, j :: 0 <= i < j < |top| ==> Before(sims, ranking[i], ranking[j]);
  }

  /** A stored position that was not reported scores at most the last reported
      score, and if it ties, it lies after the last reported position. */
  lemma RowLeavesOnlyWorse(sims: seq<real>, k: int, p: nat)
    requires p < |sims|
    requires |Top(sims, k)| > 0 && p !in Top(sims, k)
    ensures var last := Top(sims, k)[|Top(sims, k)| - 1];
      sims[p] <= sims[last] && (sims[p] == sims[last] ==> last < p)
  {
    var top := Top(sims, k);
    var ranking := Ranking(sims);
    assert p in ranking;
    var j :| 0 <= j < |ranking| && ranking[j] == p;
    assert forall i :: 0 <= i < |top| ==> top[i] == ranking[i];
    assert |top| <= j;
    assert Before(sims, ranking[|top| - 1], ranking[j]);
  }

  // ------------------------------------------------------------ callers

  /** What `retrieve` keeps of one search row: it walks `zip(scores, idx)` and drops
      entries with a negative position or a score that is not positive. */
  function Kept(scores: seq<real>, ids: seq<int>): (r: seq<nat>)
    decreases |ids|
  {
    if scores == [] || ids == [] then []
    else (if ids[0] < 0 || scores[0] <= 0.0 then [] else [ids[0] as nat]) + Kept(scores[1..], ids[1..])
  }

  /** One step of the walk over `zip(scores, idx)` from entry `j` on. */
  lemma KeptStep(scores: seq<real>, ids: seq<int>, j: nat)
    requires j < |scores| && j < |ids|
    ensures Kept(scores[j..], ids[j..])
         == (if ids[j] < 0 || scores[j] <= 0.0 then [] else [ids[j] as nat]) + Kept(scores[j + 1..], ids[j + 1..])
  {
    assert scores[j..][1..] == scores[j + 1..];
    assert ids[j..][1..] == ids[j + 1..];
  }

  lemma {:induction false} KeptBelow(scores: seq<real>, ids: seq<int>, bound: nat)
    requires forall j :: 0 <= j < |ids| && ids[j] >= 0 ==> ids[j] < bound
    ensures forall t :: 0 <= t < |Kept(scores, ids)| ==> Kept(scores, ids)[t] < bound
    decreases |ids|
  {
    if scores != [] && ids != [] {
      KeptBelow(scores[1..], ids[1..], bound);
    }
  }

  /** The reported positions with a positive score, in reported order. */
  function Positive(sims: seq<real>, order: seq<nat>): (r: seq<nat>)
    requires InRange(sims, order)
    ensures forall j :: 0 <= j < |r| ==> r[j] in order && sims[r[j]] > 0.0
    ensures forall p :: p in order && sims[p] > 0.0 ==> p in r
  {
    if order == [] then []
    else (if sims[order[0]] > 0.0 then [order[0]] else []) + Positive(sims, order[1..])
  }

  lemma {:induction false} KeptOfScoredPositions(sims: seq<real>, top: seq<nat>, pad: int)
    requires InRange(sims, top)
    ensures Kept(ScoresAt(sims, top) + Fill(0.0, pad), top + Fill<int>(-1, pad))
         == Positive(sims, top)
    decreases |top| + (if pad > 0 then pad else 0)
  {
    var scores := ScoresAt(sims, top) + Fill(0.0, pad);
    var ids: seq<int> := top + Fill<int>(-1, pad);
    if top == [] {
      if pad > 0 {
        assert scores[1..] == [] + Fill(0.0, pad - 1);
        assert ids[1..] == [] + Fill<int>(-1, pad - 1);
        KeptOfScoredPositions(sims, [], pad - 1);
      }
    } else {
      var tail := top[1..];
      assert scores[1..] == ScoresAt(sims, tail) + Fill(0.0, pad);
      assert ids[1..] == tail + Fill<int>(-1, pad);
      KeptOfScoredPositions(sims, tail, pad);
    }
  }

  /** Filtering a whole row keeps exactly the reported positions with a positive score. */
  lemma KeptRow(sims: seq<real>, k: int)
    ensures Kept(RowScores(sims, k), RowIds(sims, k)) == Positive(sims, Top(sims, k))
  {
    var top := Top(sims, k);
    KeptOfScoredPositions(sims, top, k - |top|);
  }

  /** The positions a `retrieve` with query vector `q` and `top_k = k` returns. */
  function Hits(vectors: seq<Vector>, q: Vector, k: int): (r: seq<nat>)
    ensures forall j :: 0 <= j < |r| ==> r[j] < |vectors|
  {
    var sims := Similarities(q, vectors);
    Positive(sims, Top(sims, k))
  }

  /** `[items[i] for i in positions]` */
  function Pick<T>(items: seq<T>, positions: seq<nat>): (r: seq<T>)
    requires forall j :: 0 <= j < |positions| ==> positions[j] < |items|
    ensures |r| == |positions|
    ensures forall j :: 0 <= j < |r| ==> r[j] == items[positions[j]]
  {
    seq(|positions|, j requires 0 <= j < |positions| => items[positions[j]])
  }

  lemma PickAppend<T>(items: seq<T>, positions: seq<nat>, p: nat)
    requires forall j :: 0 <= j < |positions| ==> positions[j] < |items|
    requires p < |items|
    ensures Pick(items, positions + [p]) == Pick(items, positions) + [items[p]]
  {
  }

  /** An entry that comes before every entry of a sorted order can go in front of it. */
  lemma SortedCons(sims: seq<real>, x: nat, order: seq<nat>)
    requires x < |sims| && InRange(sims, order) && SortedBy(sims, order)
    requires forall j :: 0 <= j < |order| ==> Before(sims, x, order[j])
    ensures InRange(sims, [x] + order) && SortedBy(sims, [x] + order)
  {
    var r := [x] + order;
    forall i, j | 0 <= i < j < |r|
      ensures Before(sims, r[i], r[j])
    {
      if i > 0 {
        assert r[i] == order[i - 1] && r[j] == order[j - 1];
      }
    }
  }

  lemma {:induction false} PositiveOfSorted(sims: seq<real>, order: seq<nat>)
    requires InRange(sims, order) && SortedBy(sims, order)
    ensures |Positive(sims, order)| <= |order|
    ensures SortedBy(sims, Positive(sims, order))
    decreases |order|
  {
    if order != [] {
      var tail := order[1..];
      assert SortedBy(sims, tail) by {
        assert forall i :: 0 <= i < |tail| ==> tail[i] == order[i + 1];
      }
      PositiveOfSorted(sims, tail);
      var rest := Positive(sims, tail);
      if sims[order[0]] > 0.0 {
        forall j | 0 <= j < |rest|
          ensures Before(sims, order[0], rest[j])
        {
          var m :| 0 <= m < |tail| && tail[m] == rest[j];
          assert order[m + 1] == rest[j];
        }
        SortedCons(sims, order[0], rest);
      }
    }
  }

  /** What any `retrieve` promises of the positions it returns: at most `top_k` of
      them, each with a positive score, in non-increasing score order with ties in
      ascending position order (so no position twice); a position is returned
      exactly when `search` reported it and its score is positive. An empty index
      returns nothing. */
  lemma HitsSpec(vectors: seq<Vector>, q: Vector, k: int)
    ensures var r, sims := Hits(vectors, q, k), Similarities(q, vectors);
      && (k >= 0 ==> |r| <= k)
      && |r| <= |vectors|
      && (forall j :: 0 <= j < |r| ==> Dot(q, vectors[r[j]]) > 0.0)
      && (forall i, j :: 0 <= i < j < |r| ==>
            Dot(q, vectors[r[i]]) >= Dot(q, vectors[r[j]])
            && (Dot(q, vectors[r[i]]) == Dot(q, vectors[r[j]]) ==> r[i] < r[j]))
      && (forall p :: 0 <= p < |vectors| ==> (p in r <==> p in Top(sims, k) && Dot(q, vectors[p]) > 0.0))
      && (vectors == [] ==> r == [])
  {
    var sims := Similarities(q, vectors);
    PositiveTop(sims, k);
    var r := Hits(vectors, q, k);
    assert forall p :: 0 <= p < |vectors| ==> sims[p] == Dot(q, vectors[p]);
    forall i, j | 0 <= i < j < |r|
      ensures Dot(q, vectors[r[i]]) >= Dot(q, vectors[r[j]])
      ensures Dot(q, vectors[r[i]]) == Dot(q, vectors[r[j]]) ==> r[i] < r[j]
    {
      assert Before(sims, r[i], r[j]);
    }
  }

  /** The reported positions are a sorted prefix of the ranking, at most `k` long. */
  lemma TopShape(sims: seq<real>, k: int)
    ensures SortedBy(sims, Top(sims, k))
    ensures |Top(sims, k)| <= |sims| && (k >= 0 ==> |Top(sims, k)| <= k)
  {
    var top, ranking := Top(sims, k), Ranking(sims);
    assert forall i :: 0 <= i < |top| ==> top[i] == ranking[i];
  }

  /** `Hits` stated on the scores alone. */
  lemma PositiveTop(sims: seq<real>, k: int)
    ensures var r := Positive(sims, Top(sims, k));
      && (k >= 0 ==> |r| <= k) && |r| <= |sims|
      && InRange(sims, r) && SortedBy(sims, r)
      && (forall j :: 0 <= j < |r| ==> sims[r[j]] > 0.0)
      && (forall p :: 0 <= p < |sims| ==> (p in r <==> p in Top(sims, k) && sims[p] > 0.0))
  {
    TopShape(sims, k);
    PositiveOfSorted(sims, Top(sims, k));
  }

  /** The facts a caller's filtering loop needs about one row. */
  lemma RowBounds(sims: seq<real>, k: int)
    ensures |RowScores(sims, k)| == |RowIds(sims, k)|
    ensures forall j :: 0 <= j < |RowIds(sims, k)| && RowIds(sims, k)[j] >= 0 ==> RowIds(sims, k)[j] < |sims|
  {
    RowLayout(sims, k);
  }

  /** An index holding one vector returns it for any `k >= 1` exactly when it
      scores positively against the query. */
  lemma SingleVectorHits(v: Vector, q: Vector, k: int)
    requires k >= 1
    ensures Hits([v], q, k) == (if Dot(q, v) > 0.0 then [0] else [])
  {
    var sims := Similarities(q, [v]);
    assert |sims| == 1 && sims[0] == Dot(q, v);
    RankingOfOne(sims);
    assert Top(sims, k) == [0];
    PositiveOfOne(sims);
  }

  lemma RankingOfOne(sims: seq<real>)
    requires |sims| == 1
    ensures Ranking(sims) == [0]
  {
    var ranking := Ranking(sims);
    assert ranking[0] in ranking;
  }

  lemma PositiveOfOne(sims: seq<real>)
    requires |sims| == 1
    ensures Positive(sims, [0]) == (if sims[0] > 0.0 then [0] else [])
  {
    assert [0][1..] == [];
  }

  /** At most `k` hits, and none from an empty index. */
  lemma HitsBound(vectors: seq<Vector>, q: Vector, k: int)
    ensures k >= 0 ==> |Hits(vectors, q, k)| <= k
    ensures vectors == [] ==> Hits(vectors, q, k) == []
  {
    HitsSpec(vectors, q, k);
  }

  /** An empty index yields nothing to pick. */
  lemma PickNoHits<T>(items: seq<T>, vectors: seq<Vector>, q: Vector, k: int)
    requires vectors == []
    ensures Pick(items, Hits(vectors, q, k)) == []
  {
    HitsBound(vectors, q, k);
  }

  /** What a caller that picks its items at the hits returns: at most `k` of them,
      and nothing from an empty collection. */
  lemma PickHits<T>(items: seq<T>, vectors: seq<Vector>, q: Vector, k: int)
    requires |items| == |vectors|
    ensures k >= 0 ==> |Pick(items, Hits(vectors, q, k))| <= k
    ensures items == [] ==> Pick(items, Hits(vectors, q, k)) == []
  {
    HitsBound(vectors, q, k);
  }

  /** The row `search` returns for query `q` satisfies what `KeepHits` needs, and
      filtering it yields the hits. */
  lemma SearchRowFilters<T>(items: seq<T>, vectors: seq<Vector>, q: Vector, k: int, scores: seq<real>, ids: seq<int>)
    requires |items| == |vectors|
    requires scores == RowScores(Similarities(q, vectors), k) && ids == RowIds(Similarities(q, vectors), k)
    ensures forall j :: 0 <= j < |ids| && ids[j] >= 0 ==> ids[j] < |items|
    ensures Kept(scores, ids) == Hits(vectors, q, k)
  {
    var sims := Similarities(q, vectors);
    RowBounds(sims, k);
    KeptRow(sims, k);
  }

  /** A query with the zero vector, which `model_embedding` gives text without
      tokens, retrieves nothing. */
  lemma ZeroQueryHitsNothing(vectors: seq<Vector>, q: Vector, k: int)
    requires forall i :: 0 <= i < |q| ==> q[i] == 0.0
    ensures Hits(vectors, q, k) == []
  {
    var r := Hits(vectors, q, k);
    if r != [] {
      HitsSpec(vectors, q, k);
      DotWithZeros(q, vectors[r[0]]);
      assert false;
    }
  }

  /** The filtering loop both retrievers run over one search row: for each
      `(score, i)` of `zip(scores, ids)`, skip a negative `i` or a score that is not
      positive, and otherwise append `items[i]`. */
  method KeepHits<T>(items: seq<T>, scores: seq<real>, ids: seq<int>) returns (results: seq<T>)
    requires forall j :: 0 <= j < |ids| && ids[j] >= 0 ==> ids[j] < |items|
    ensures forall t :: 0 <= t < |Kept(scores, ids)| ==> Kept(scores, ids)[t] < |items|
    ensures results == Pick(items, Kept(scores, ids))
  {
    var n := if |scores| < |ids| then |scores| else |ids|;
    results := [];
    ghost var kept: seq<nat> := [];
    assert scores[0..] == scores && ids[0..] == ids;
    for j := 0 to n
      invariant kept + Kept(scores[j..], ids[j..]) == Kept(scores, ids)
      invariant forall t :: 0 <= t < |kept| ==> kept[t] < |items|
      invariant results == Pick(items, kept)
    {
      KeptStep(scores, ids, j);
      if ids[j] < 0 || scores[j] <= 0.0 {
        continue;
      }
      AppendAssoc(kept, [ids[j] as nat], Kept(scores[j + 1..], ids[j + 1..]));
      PickAppend(items, kept, ids[j]);
      results := results + [items[ids[j]]];
      kept := kept + [ids[j]];
    }
    assert scores[n..] == [] || ids[n..] == [];
    AppendEmpty(kept);
  }

  /** The score rows of a search over `vectors`, one per query. */
  function ScoreRows(vectors: seq<Vector>, query: seq<Vector>, k: int): (rows: seq<seq<real>>)
    ensures |rows| == |query|
  {
    if query == [] then []
    else ScoreRows(vectors, query[..|query| - 1], k) + [RowScores(Similarities(query[|query| - 1], vectors), k)]
  }

  /** The index rows of a search over `vectors`, one per query. */
  function IdRows(vectors: seq<Vector>, query: seq<Vector>, k: int): (rows: seq<seq<int>>)
    ensures |rows| == |query|
  {
    if query == [] then []
    else IdRows(vectors, query[..|query| - 1], k) + [RowIds(Similarities(query[|query| - 1], vectors), k)]
  }

  /** Score row `qi` of a search belongs to query `qi`. */
  lemma {:induction false} ScoreRowAt(vectors: seq<Vector>, query: seq<Vector>, k: int, qi: nat)
    requires qi < |query|
    ensures ScoreRows(vectors, query, k)[qi] == RowScores(Similarities(query[qi], vectors), k)
    decreases |query|
  {
    var n := |query| - 1;
    var front := ScoreRows(vectors, query[..n], k);
    assert ScoreRows(vectors, query, k) == front + [RowScores(Similarities(query[n], vectors), k)];
    if qi < n {
      assert query[..n][qi] == query[qi];
      ScoreRowAt(vectors, query[..n], k, qi);
    }
  }

  /** Index row `qi` of a search belongs to query `qi`. */
  lemma {:induction false} IdRowAt(vectors: seq<Vector>, query: seq<Vector>, k: int, qi: nat)
    requires qi < |query|
    ensures IdRows(vectors, query, k)[qi] == RowIds(Similarities(query[qi], vectors), k)
    decreases |query|
  {
    var n := |query| - 1;
    var front := IdRows(vectors, query[..n], k);
    assert IdRows(vectors, query, k) == front + [RowIds(Similarities(query[n], vectors), k)];
    if qi < n {
      assert query[..n][qi] == query[qi];
      IdRowAt(vectors, query[..n], k, qi);
    }
  }

  // --------------------------------------------------------------- class

  class IndexFlatIP {
    const dim: int
    var vectors: seq<Vector>

    constructor (dim: int)
      ensures this.dim == dim && vectors == []
    {
      this.dim := dim;
      vectors := [];
    }

    /** `add(vecs)`: append at the end, in order. */
    method Add(vecs: seq<Vector>)
      modifies this
      ensures vectors == old(vectors) + vecs
    {
      vectors := vectors + vecs;
    }

    /** `search(query, k)`: one score row and one index row per query vector
        (`ScoreRowAt` and `IdRowAt` say which). */
    method Search(query: seq<Vector>, k: int) returns (scoresList: seq<seq<real>>, idxList: seq<seq<int>>)
      ensures scoresList == ScoreRows(vectors, query, k) && idxList == IdRows(vectors, query, k)
    {
      scoresList, idxList := [], [];
      for qi := 0 to |query|
        invariant scoresList == ScoreRows(vectors, query[..qi], k)
        invariant idxList == IdRows(vectors, query[..qi], k)
      {
        var scores, indices := SearchRow(query[qi], k);
        assert query[..qi + 1][..qi] == query[..qi] && query[..qi + 1][qi] == query[qi];
        scoresList := scoresList + [scores];
        idxList := idxList + [indices];
      }
      assert query[..|query|] == query;
    }

    /** The body of the loop over the queries: rank, cut at `k`, and pad. */
    method SearchRow(q: Vector, k: int) returns (scores: seq<real>, indices: seq<int>)
      ensures scores == RowScores(Similarities(q, vectors), k)
      ensures indices == RowIds(Similarities(q, vectors), k)
    {
      var sims := Similarities(q, vectors);
      var order := SliceTo(Ranking(sims), k);
      var found := ScoresAt(sims, order);
      scores := found;
      indices := order;
      while |scores| < k
        invariant |scores| == |indices| && |order| <= |scores|
        invariant |scores| == |order| || |scores| <= k
        invariant scores == found + Fill(0.0, |scores| - |order|)
        invariant indices == order + Fill<int>(-1, |indices| - |order|)
        decreases k - |scores|
      {
        FillSnoc(0.0, |scores| - |order|);
        FillSnoc(-1, |indices| - |order|);
        AppendAssoc(found, Fill(0.0, |scores| - |order|), [0.0]);
        AppendAssoc(order, Fill<int>(-1, |indices| - |order|), [-1]);
        scores := scores + [0.0];
        indices := indices + [-1];
      }
      assert Fill(0.0, |scores| - |order|) == Fill(0.0, k - |order|);
      assert Fill<int>(-1, |indices| - |order|) == Fill<int>(-1, k - |order|);
    }
  }
}
