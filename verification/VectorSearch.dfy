/**
 The ranking of search_similarity (rag/vector_store.py).

 The rows are the result of the query; which rows it selects is not modelled.
 */
module VectorSearch {
  import opened CosineSimilarity

  /** A row's stored embedding: none or empty, unusable (an exception while decoding or comparing), or a vector. */
  datatype Embedding = Missing | Corrupt | Vector(values: seq<real>)

  datatype Row = Row(chunkId: int, embedding: Embedding)

  datatype Hit = Hit(chunkId: int, score: real)

  /** The rows with a usable embedding, in order, scored. */
  function Hits(query: seq<real>, rows: seq<Row>, norm: seq<real> -> real): seq<Hit> {
    if rows == [] then []
    else
      var row := rows[|rows| - 1];
      Hits(query, rows[..|rows| - 1], norm)
      + if row.embedding.Vector?
        then [Hit(row.chunkId, Cosine(query, row.embedding.values, norm(query), norm(row.embedding.values)))]
        else []
  }

  /** Behind every hit that scores at least as well, before every hit that scores less. */
  function Insert(sorted: seq<Hit>, h: Hit): seq<Hit> {
    if sorted == [] then [h]
    else
      var n := |sorted| - 1;
      if sorted[n].score >= h.score then sorted + [h] else Insert(sorted[..n], h) + [sorted[n]]
  }

  /** The stable sort by descending score. */
  function SortDescending(hits: seq<Hit>): (sorted: seq<Hit>)
    ensures |sorted| == |hits|
  {
    if hits == [] then []
    else
      var n := |hits| - 1;
      InsertShifts(SortDescending(hits[..n]), hits[n]);
      Insert(SortDescending(hits[..n]), hits[n])
  }

  /** How many of n hits the slice [:k] keeps: a negative k drops that many from the end. */
  function Kept(n: nat, k: int): nat {
    if k >= 0 then (if k <= n then k else n) else if n + k >= 0 then n + k else 0
  }

  function Slice(hits: seq<Hit>, k: int): seq<Hit> { hits[..Kept(|hits|, k)] }

  method SearchSimilarity(query: seq<real>, rows: seq<Row>, topK: int, norm: seq<real> -> real) returns (best: seq<Hit>)
    ensures best == Slice(SortDescending(Hits(query, rows, norm)), topK)
  {
    var hits: seq<Hit> := [];
    for i := 0 to |rows|
      invariant hits == Hits(query, rows[..i], norm)
    {
      assert rows[..i + 1][..i] == rows[..i];
      match rows[i].embedding {
        case Vector(values) =>
          hits := hits + [Hit(rows[i].chunkId, Cosine(query, values, norm(query), norm(values)))];
        case _ =>
      }
    }
    assert rows[..|rows|] == rows;
    best := Slice(SortDescending(hits), topK);
  }

  predicate Descending(hits: seq<Hit>) {
    forall i, j :: 0 <= i < j < |hits| ==> hits[i].score >= hits[j].score
  }

  /** How many of the hits score at least, and above, a bound. */
  function AtLeast(hits: seq<Hit>, bound: real): (n: nat)
    ensures n <= |hits|
  {
    if hits == [] then 0
    else AtLeast(hits[..|hits| - 1], bound) + if hits[|hits| - 1].score >= bound then 1 else 0
  }

  function Above(hits: seq<Hit>, bound: real): (n: nat)
    ensures n <= |hits|
  {
    if hits == [] then 0
    else Above(hits[..|hits| - 1], bound) + if hits[|hits| - 1].score > bound then 1 else 0
  }

  /** The rank of hit p: the earlier hits that score as well as it does, and the later ones that score better. */
  function Rank(hits: seq<Hit>, p: nat): nat
    requires p < |hits|
  {
    AtLeast(hits[..p], hits[p].score) + Above(hits[p + 1..], hits[p].score)
  }

  lemma {:induction false} InsertShifts(sorted: seq<Hit>, h: Hit)
    ensures |Insert(sorted, h)| == |sorted| + 1
  {
    if sorted != [] {
      InsertShifts(sorted[..|sorted| - 1], h);
    }
  }

  lemma {:induction false} AtLeastIsAPrefix(sorted: seq<Hit>, bound: real)
    requires Descending(sorted)
    ensures forall i :: 0 <= i < |sorted| ==> (i < AtLeast(sorted, bound) <==> sorted[i].score >= bound)
  {
    if sorted != [] {
      var n := |sorted| - 1;
      AtLeastIsAPrefix(sorted[..n], bound);
      assert forall i :: 0 <= i < n ==> sorted[..n][i] == sorted[i] && sorted[i].score >= sorted[n].score;
    }
  }

  /** Insert puts the new hit at AtLeast(sorted, score), leaves what is before and shifts what is behind. */
  lemma {:induction false} InsertAt(sorted: seq<Hit>, h: Hit)
    requires Descending(sorted)
    ensures var at := AtLeast(sorted, h.score);
            Insert(sorted, h) == sorted[..at] + [h] + sorted[at..]
  {
    if sorted != [] {
      var n := |sorted| - 1;
      AtLeastIsAPrefix(sorted, h.score);
      if sorted[n].score < h.score {
        var front, at := sorted[..n], AtLeast(sorted, h.score);
        InsertAt(front, h);
        assert front[..at] == sorted[..at];
        assert front[at..] + [sorted[n]] == sorted[at..];
      }
    }
  }

  lemma {:induction false} InsertKeepsDescending(sorted: seq<Hit>, h: Hit)
    requires Descending(sorted)
    ensures Descending(Insert(sorted, h))
  {
    InsertAt(sorted, h);
    AtLeastIsAPrefix(sorted, h.score);
  }

  lemma {:induction false} SortIsDescending(hits: seq<Hit>)
    ensures Descending(SortDescending(hits))
  {
    if hits != [] {
      SortIsDescending(hits[..|hits| - 1]);
      InsertKeepsDescending(SortDescending(hits[..|hits| - 1]), hits[|hits| - 1]);
    }
  }

  lemma {:induction false} AtLeastOneMore(hits: seq<Hit>, h: Hit, bound: real)
    ensures AtLeast(hits + [h], bound) == AtLeast(hits, bound) + if h.score >= bound then 1 else 0
  {
    assert (hits + [h])[..|hits|] == hits;
  }

  lemma {:induction false} InsertAddsOne(sorted: seq<Hit>, h: Hit, bound: real)
    ensures AtLeast(Insert(sorted, h), bound) == AtLeast(sorted, bound) + if h.score >= bound then 1 else 0
  {
    if sorted != [] && sorted[|sorted| - 1].score < h.score {
      var n := |sorted| - 1;
      InsertAddsOne(sorted[..n], h, bound);
      AtLeastOneMore(Insert(sorted[..n], h), sorted[n], bound);
      AtLeastOneMore(sorted[..n], sorted[n], bound);
      assert sorted == sorted[..n] + [sorted[n]];
    } else {
      assert Insert(sorted, h) == sorted + [h];
      AtLeastOneMore(sorted, h, bound);
    }
  }

  /** Sorting keeps every count, so the insertion point can be counted in the unsorted hits. */
  lemma {:induction false} SortKeepsCounts(hits: seq<Hit>, bound: real)
    ensures AtLeast(SortDescending(hits), bound) == AtLeast(hits, bound)
  {
    if hits != [] {
      var n := |hits| - 1;
      SortKeepsCounts(hits[..n], bound);
      InsertAddsOne(SortDescending(hits[..n]), hits[n], bound);
    }
  }

  /** Inserting a hit moves the one at place r back by one if the new hit outscores it. */
  lemma {:induction false} InsertMoves(sorted: seq<Hit>, h: Hit, r: nat)
    requires Descending(sorted) && r < |sorted|
    ensures h.score > sorted[r].score <==> r >= AtLeast(sorted, h.score)
    ensures |Insert(sorted, h)| == |sorted| + 1
    ensures Insert(sorted, h)[if h.score > sorted[r].score then r + 1 else r] == sorted[r]
  {
    AtLeastIsAPrefix(sorted, h.score);
    InsertAt(sorted, h);
  }

  /** Where the last hit lands in the sort of all of them, and where it moves the one at place r. */
  lemma {:induction false} LastHitLands(hits: seq<Hit>, r: nat)
    requires hits != [] && r < |hits| - 1
    ensures var sorted, h := SortDescending(hits[..|hits| - 1]), hits[|hits| - 1];
            && (h.score > sorted[r].score <==> r >= AtLeast(hits[..|hits| - 1], h.score))
            && SortDescending(hits)[if h.score > sorted[r].score then r + 1 else r] == sorted[r]
  {
    SortIsDescending(hits[..|hits| - 1]);
    SortKeepsCounts(hits[..|hits| - 1], hits[|hits| - 1].score);
    InsertMoves(SortDescending(hits[..|hits| - 1]), hits[|hits| - 1], r);
  }

  lemma {:induction false} LastHitIsAt(hits: seq<Hit>)
    requires hits != []
    ensures SortDescending(hits)[AtLeast(hits[..|hits| - 1], hits[|hits| - 1].score)] == hits[|hits| - 1]
  {
    var sorted, h := SortDescending(hits[..|hits| - 1]), hits[|hits| - 1];
    SortIsDescending(hits[..|hits| - 1]);
    SortKeepsCounts(hits[..|hits| - 1], h.score);
    InsertAt(sorted, h);
  }

  /** One more hit at the end moves the earlier hits it outscores back by one place. */
  lemma {:induction false} RankWithOneMore(hits: seq<Hit>, p: nat)
    requires p < |hits|
    ensures p == |hits| - 1 ==> Rank(hits, p) == AtLeast(hits[..p], hits[p].score)
    ensures p < |hits| - 1 ==>
              Rank(hits, p) == Rank(hits[..|hits| - 1], p) + if hits[|hits| - 1].score > hits[p].score then 1 else 0
  {
    var n := |hits| - 1;
    if p < n {
      assert hits[..n][..p] == hits[..p];
      assert hits[p + 1..][..n - p - 1] == hits[..n][p + 1..];
    }
  }

  /** The sort puts every hit at its rank. */
  lemma {:induction false} SortedByRank(hits: seq<Hit>, p: nat)
    requires p < |hits|
    ensures Rank(hits, p) < |hits| && SortDescending(hits)[Rank(hits, p)] == hits[p]
  {
    RankWithOneMore(hits, p);
    if p < |hits| - 1 {
      SortedByRank(hits[..|hits| - 1], p);
      LastHitLands(hits, Rank(hits[..|hits| - 1], p));
    } else {
      LastHitIsAt(hits);
    }
  }

  /** No two hits share a rank. */
  lemma {:induction false} RanksAreDistinct(hits: seq<Hit>, p: nat, q: nat)
    requires p < q < |hits|
    ensures Rank(hits, p) != Rank(hits, q)
  {
    var front := hits[..|hits| - 1];
    RankWithOneMore(hits, p);
    RankWithOneMore(hits, q);
    SortedByRank(front, p);
    LastHitLands(hits, Rank(front, p));
    if q < |hits| - 1 {
      RanksAreDistinct(front, p, q);
      SortedByRank(front, q);
      LastHitLands(hits, Rank(front, q));
    }
  }

  /**
   Of n hits the search returns Kept(n, k) in descending order, which is min(k, n) for k >= 0; hit p is
   returned exactly when its rank is below that, at that rank; and none left out beats one returned.
   Together with RanksAreDistinct this determines the result.
   */
  lemma {:induction false} TopK(hits: seq<Hit>, k: int)
    ensures var best := Slice(SortDescending(hits), k);
            && |best| == Kept(|hits|, k)
            && Descending(best)
            && (forall p :: 0 <= p < |hits| && Rank(hits, p) < |best| ==> best[Rank(hits, p)] == hits[p])
            && (forall p, r :: 0 <= p < |hits| && Rank(hits, p) >= |best| && 0 <= r < |best| ==>
                  hits[p].score <= best[r].score)
  {
    SortIsDescending(hits);
    var best := Slice(SortDescending(hits), k);
    forall p | 0 <= p < |hits|
      ensures Rank(hits, p) < |hits| && SortDescending(hits)[Rank(hits, p)] == hits[p]
    {
      SortedByRank(hits, p);
    }
    forall p, r | 0 <= p < |hits| && Rank(hits, p) >= |best| && 0 <= r < |best|
      ensures hits[p].score <= best[r].score
    {
      assert r < Rank(hits, p);
    }
  }

  function UsableRows(rows: seq<Row>): nat {
    if rows == [] then 0 else UsableRows(rows[..|rows| - 1]) + if rows[|rows| - 1].embedding.Vector? then 1 else 0
  }

  /** Every usable row, and no other, becomes a hit, in the order of the rows. */
  lemma {:induction false} HitOfRow(query: seq<real>, rows: seq<Row>, norm: seq<real> -> real, i: nat)
    requires i < |rows| && rows[i].embedding.Vector?
    ensures |Hits(query, rows, norm)| == UsableRows(rows) && UsableRows(rows[..i]) < UsableRows(rows)
    ensures var v := rows[i].embedding.values;
            Hits(query, rows, norm)[UsableRows(rows[..i])]
                == Hit(rows[i].chunkId, Cosine(query, v, norm(query), norm(v)))
    decreases |rows|
  {
    HitCount(query, rows, norm);
    var n := |rows| - 1;
    HitCount(query, rows[..n], norm);
    if i < n {
      HitOfRow(query, rows[..n], norm, i);
      assert rows[..n][..i] == rows[..i];
    }
  }

  lemma {:induction false} HitCount(query: seq<real>, rows: seq<Row>, norm: seq<real> -> real)
    ensures |Hits(query, rows, norm)| == UsableRows(rows)
  {
    if rows != [] {
      HitCount(query, rows[..|rows| - 1], norm);
    }
  }

  /** Every hit has a score between -1 and 1. */
  lemma {:induction false} HitsAreBounded(query: seq<real>, rows: seq<Row>, norm: seq<real> -> real)
    requires IsNorm(norm(query), query)
    requires forall i :: 0 <= i < |rows| && rows[i].embedding.Vector? ==>
               IsNorm(norm(rows[i].embedding.values), rows[i].embedding.values)
    ensures forall p :: 0 <= p < |Hits(query, rows, norm)| ==> -1.0 <= Hits(query, rows, norm)[p].score <= 1.0
  {
    if rows != [] {
      var n := |rows| - 1;
      HitsAreBounded(query, rows[..n], norm);
      if rows[n].embedding.Vector? {
        var v := rows[n].embedding.values;
        CosineIsBounded(query, v, norm(query), norm(v));
      }
    }
  }
}
