/** `getTfIdfScores`: the cosine similarity between the query and each
    website's matched keywords, each vector weighted by term frequency
    times inverse document frequency. `Math.log` and `Math.sqrt` are the
    parameters `ln` and `sqrt`; arithmetic is on `real`. */
module TfIdf {
  import opened Schema

  // ---------------------------------------------------------------------
  // Specification

  /** `queryTfs`: each distinct query word with its share of the query. */
  function QueryShares(q: seq<string>): (tfs: map<string, real>)
    ensures forall w :: w in tfs <==> w in q
    ensures forall w :: w in tfs ==> tfs[w] > 0.0
  {
    var tfs := map w | w in q :: multiset(q)[w] as real / |q| as real;
    assert forall w :: w in tfs ==> w in multiset(q);
    tfs
  }

  /** `1 + Math.log(documentCount / kw.documentsContaining)`. */
  function Idf(documentCount: int, kw: KeywordHit, ln: real -> real): real
    requires kw.documentsContaining != 0
  {
    1.0 + ln(documentCount as real / kw.documentsContaining as real)
  }

  /** `tf * idf` of the keyword in the document. */
  function DocWeight(documentCount: int, kw: KeywordHit, wordCount: int, ln: real -> real): real
    requires kw.documentsContaining != 0 && wordCount != 0
  {
    (kw.occurrences as real / wordCount as real) * Idf(documentCount, kw, ln)
  }

  /** `qryTf`: the keyword's query share (`|| 0` when the query lacks
      it) times its idf. */
  function QueryWeight(tfs: map<string, real>, documentCount: int, kw: KeywordHit, ln: real -> real): real
    requires kw.documentsContaining != 0
  {
    (if kw.word in tfs then tfs[kw.word] else 0.0) * Idf(documentCount, kw, ln)
  }

  /** Every keyword's `documents_containing_word` is non-zero, as the
      inverse document frequency divides by it. */
  ghost predicate CountsNonZero(kws: seq<KeywordHit>)
  {
    forall k :: 0 <= k < |kws| ==> kws[k].documentsContaining != 0
  }

  /** The divisors of a group's weights are non-zero: its keywords'
      document counts and its website's word count. */
  ghost predicate Computable(kws: seq<KeywordHit>, wordCount: int)
  {
    wordCount != 0 && CountsNonZero(kws)
  }

  /** `dot` after the first `n` keywords: the sum of query weight times
      document weight. */
  function Dot(tfs: map<string, real>, documentCount: int, kws: seq<KeywordHit>, n: nat, wordCount: int, ln: real -> real): real
    requires n <= |kws| && Computable(kws, wordCount)
  {
    if n == 0 then 0.0
    else
      Dot(tfs, documentCount, kws, n - 1, wordCount, ln)
        + QueryWeight(tfs, documentCount, kws[n - 1], ln) * DocWeight(documentCount, kws[n - 1], wordCount, ln)
  }

  /** `sumQ` after the first `n` keywords: the sum of squared query weights. */
  function SumQ(tfs: map<string, real>, documentCount: int, kws: seq<KeywordHit>, n: nat, ln: real -> real): real
    requires n <= |kws| && CountsNonZero(kws)
  {
    if n == 0 then 0.0
    else
      var w := QueryWeight(tfs, documentCount, kws[n - 1], ln);
      SumQ(tfs, documentCount, kws, n - 1, ln) + w * w
  }

  /** `sumD` after the first `n` keywords: the sum of squared document
      weights. */
  function SumD(documentCount: int, kws: seq<KeywordHit>, n: nat, wordCount: int, ln: real -> real): real
    requires n <= |kws| && Computable(kws, wordCount)
  {
    if n == 0 then 0.0
    else
      var w := DocWeight(documentCount, kws[n - 1], wordCount, ln);
      SumD(documentCount, kws, n - 1, wordCount, ln) + w * w
  }

  /** The zero-guarded cosine: 0 unless the denominator is positive. */
  function Cosine(dot: real, sumQ: real, sumD: real, sqrt: real -> real): real
  {
    var denom := sqrt(sumQ) * sqrt(sumD);
    if denom > 0.0 then dot / denom else 0.0
  }

  /** The similarity of one group to the query whose shares are `tfs`. */
  function Similarity(documentCount: int, tfs: map<string, real>, g: Group, ln: real -> real, sqrt: real -> real): real
    requires Computable(g.keywords, g.website.wordCount)
  {
    var kws := g.keywords;
    var wc := g.website.wordCount;
    var n := |kws|;
    Cosine(Dot(tfs, documentCount, kws, n, wc, ln), SumQ(tfs, documentCount, kws, n, ln), SumD(documentCount, kws, n, wc, ln), sqrt)
  }

  ghost predicate AllComputable(grouped: seq<Group>)
  {
    forall g :: 0 <= g < |grouped| ==> Computable(grouped[g].keywords, grouped[g].website.wordCount)
  }

  // ---------------------------------------------------------------------
  // Properties

  /** A word's share is its count over the query length. */
  lemma QueryShareIsFrequency(q: seq<string>, w: string)
    requires w in q
    ensures QueryShares(q)[w] * |q| as real == multiset(q)[w] as real
  {
  }

  /** A one-word query gives its word the whole share. */
  lemma SingleWordQueryShare(w: string)
    ensures QueryShares([w]) == map[w := 1.0]
  {
    assert multiset([w])[w] == 1;
  }

  lemma {:induction false} SumsNonNegative(tfs: map<string, real>, documentCount: int, kws: seq<KeywordHit>, n: nat, wordCount: int, ln: real -> real)
    requires n <= |kws| && Computable(kws, wordCount)
    ensures SumQ(tfs, documentCount, kws, n, ln) >= 0.0
    ensures SumD(documentCount, kws, n, wordCount, ln) >= 0.0
  {
    if n > 0 {
      SumsNonNegative(tfs, documentCount, kws, n - 1, wordCount, ln);
      var wq := QueryWeight(tfs, documentCount, kws[n - 1], ln);
      var wd := DocWeight(documentCount, kws[n - 1], wordCount, ln);
      assert wq * wq >= 0.0 && wd * wd >= 0.0;
    }
  }

  /** A keyword whose word is not in the query changes neither `dot` nor
      `sumQ`. */
  lemma UnqueriedKeywordAddsNothing(q: seq<string>, documentCount: int, kws: seq<KeywordHit>, k: nat, wordCount: int, ln: real -> real)
    requires k < |kws| && Computable(kws, wordCount) && kws[k].word !in q
    ensures Dot(QueryShares(q), documentCount, kws, k + 1, wordCount, ln) == Dot(QueryShares(q), documentCount, kws, k, wordCount, ln)
    ensures SumQ(QueryShares(q), documentCount, kws, k + 1, ln) == SumQ(QueryShares(q), documentCount, kws, k, ln)
  {
  }

  /** No matched keyword in the query: no `dot` and no `sumQ`. */
  lemma {:induction false} NoSharedWordNoDot(q: seq<string>, documentCount: int, kws: seq<KeywordHit>, n: nat, wordCount: int, ln: real -> real)
    requires n <= |kws| && Computable(kws, wordCount)
    requires forall k :: 0 <= k < |kws| ==> kws[k].word !in q
    ensures Dot(QueryShares(q), documentCount, kws, n, wordCount, ln) == 0.0
    ensures SumQ(QueryShares(q), documentCount, kws, n, ln) == 0.0
  {
    if n > 0 {
      NoSharedWordNoDot(q, documentCount, kws, n - 1, wordCount, ln);
      UnqueriedKeywordAddsNothing(q, documentCount, kws, n - 1, wordCount, ln);
    }
  }

  /** A website none of whose matched keywords is in the query has
      similarity 0. */
  lemma NoSharedWordScoresZero(documentCount: int, q: seq<string>, g: Group, ln: real -> real, sqrt: real -> real)
    requires Computable(g.keywords, g.website.wordCount)
    requires forall k :: 0 <= k < |g.keywords| ==> g.keywords[k].word !in q
    ensures Similarity(documentCount, QueryShares(q), g, ln, sqrt) == 0.0
  {
    NoSharedWordNoDot(q, documentCount, g.keywords, |g.keywords|, g.website.wordCount, ln);
  }

  /** An empty keyword list scores 0, whatever `sqrt` returns. */
  lemma EmptyGroupScoresZero(documentCount: int, tfs: map<string, real>, site: Website, ln: real -> real, sqrt: real -> real)
    requires site.wordCount != 0
    ensures Similarity(documentCount, tfs, Group([], site), ln, sqrt) == 0.0
  {
  }

  /** `sqrt` is the square root on the non-negative reals. */
  ghost predicate ExactSqrt(sqrt: real -> real)
  {
    forall x: real :: x >= 0.0 ==> sqrt(x) >= 0.0 && sqrt(x) * sqrt(x) == x
  }

  lemma SqrtOfSquare(sqrt: real -> real, w: real)
    requires ExactSqrt(sqrt) && w > 0.0
    ensures sqrt(w * w) == w
  {
    var s := sqrt(w * w);
    assert s >= 0.0 && s * s == w * w;
    assert (w - s) * (w + s) == 0.0;
    assert w + s > 0.0;
  }

  lemma CosineOfAligned(dot: real, sumQ: real, sumD: real, sqrt: real -> real)
    requires sqrt(sumQ) * sqrt(sumD) == dot && dot > 0.0
    ensures Cosine(dot, sumQ, sumD, sqrt) == 1.0
  {
    assert dot / dot == 1.0;
  }

  /** With an exact square root, a website matching a one-word query
      with one keyword of positive weight is at similarity 1. */
  lemma SingleTermMatchScoresOne(documentCount: int, w: string, kw: KeywordHit, site: Website, ln: real -> real, sqrt: real -> real)
    requires kw.word == w && kw.documentsContaining != 0 && site.wordCount != 0
    requires DocWeight(documentCount, kw, site.wordCount, ln) > 0.0 && Idf(documentCount, kw, ln) > 0.0
    requires ExactSqrt(sqrt)
    ensures Similarity(documentCount, QueryShares([w]), Group([kw], site), ln, sqrt) == 1.0
  {
    var kws := [kw];
    SingleWordQueryShare(w);
    var tfs := QueryShares([w]);
    var wq := QueryWeight(tfs, documentCount, kw, ln);
    var wd := DocWeight(documentCount, kw, site.wordCount, ln);
    assert wq == Idf(documentCount, kw, ln);
    SqrtOfSquare(sqrt, wq);
    SqrtOfSquare(sqrt, wd);
    assert Dot(tfs, documentCount, kws, 1, site.wordCount, ln) == wq * wd;
    assert SumQ(tfs, documentCount, kws, 1, ln) == wq * wq;
    assert SumD(documentCount, kws, 1, site.wordCount, ln) == wd * wd;
    assert wq * wd > 0.0;
    assert sqrt(wq * wq) * sqrt(wd * wd) == wq * wd;
    assert (wq * wd) / (wq * wd) == 1.0;
    CosineOfAligned(wq * wd, wq * wq, wd * wd, sqrt);
    assert Similarity(documentCount, tfs, Group(kws, site), ln, sqrt) == Cosine(wq * wd, wq * wq, wd * wd, sqrt);
  }

  // ---------------------------------------------------------------------
  // The computation

  /** `queryTermCounts`: each distinct query word with its count. */
  method QueryTermCounts(q: seq<string>) returns (queryTermCounts: map<string, nat>)
    ensures forall w :: w in queryTermCounts <==> w in q
    ensures forall w :: w in queryTermCounts ==> queryTermCounts[w] == multiset(q)[w]
  {
    queryTermCounts := map[];
    for i := 0 to |q|
      invariant forall w :: w in queryTermCounts <==> w in q[..i]
      invariant forall w :: w in queryTermCounts ==> queryTermCounts[w] == multiset(q[..i])[w]
    {
      assert q[..i + 1] == q[..i] + [q[i]];
      var w := q[i];
      var prior := if w in queryTermCounts then queryTermCounts[w] else 0;
      queryTermCounts := queryTermCounts[w := prior + 1];
    }
    assert q[..|q|] == q;
  }

  /** `queryTfs`, filled from the counts. */
  method QueryTfs(q: seq<string>) returns (queryTfs: map<string, real>)
    ensures queryTfs == QueryShares(q)
  {
    var queryTermCounts := QueryTermCounts(q);
    queryTfs := map[];
    var entries := queryTermCounts.Keys;
    while entries != {}
      invariant entries <= queryTermCounts.Keys
      invariant forall w :: w in queryTfs <==> w in queryTermCounts && w !in entries
      invariant forall w :: w in queryTfs ==> queryTfs[w] == QueryShares(q)[w]
      decreases |entries|
    {
      var w :| w in entries;
      queryTfs := queryTfs[w := queryTermCounts[w] as real / |q| as real];
      entries := entries - {w};
    }
  }

  /** The inner loop: `dot`, `sumQ` and `sumD` of one group. */
  method Accumulate(queryTfs: map<string, real>, documentCount: int, kws: seq<KeywordHit>, wordCount: int, ln: real -> real)
    returns (dot: real, sumQ: real, sumD: real)
    requires Computable(kws, wordCount)
    ensures dot == Dot(queryTfs, documentCount, kws, |kws|, wordCount, ln)
    ensures sumQ == SumQ(queryTfs, documentCount, kws, |kws|, ln)
    ensures sumD == SumD(documentCount, kws, |kws|, wordCount, ln)
  {
    dot, sumQ, sumD := 0.0, 0.0, 0.0;
    for i := 0 to |kws|
      invariant dot == Dot(queryTfs, documentCount, kws, i, wordCount, ln)
      invariant sumQ == SumQ(queryTfs, documentCount, kws, i, ln)
      invariant sumD == SumD(documentCount, kws, i, wordCount, ln)
    {
      var kw := kws[i];
      var tf := kw.occurrences as real / wordCount as real;
      var idf := 1.0 + ln(documentCount as real / kw.documentsContaining as real);
      var docWeight := tf * idf;
      var qryTf := (if kw.word in queryTfs then queryTfs[kw.word] else 0.0) * idf;
      dot := dot + qryTf * docWeight;
      sumQ := sumQ + qryTf * qryTf;
      sumD := sumD + docWeight * docWeight;
    }
  }

  /** One `[similarity, website]` pair per group, in group order. */
  method GetTfIdfScores(documentCount: int, lemmatizedQuery: seq<string>, grouped: seq<Group>, ln: real -> real, sqrt: real -> real)
    returns (sims: seq<(real, Website)>)
    requires AllComputable(grouped)
    ensures |sims| == |grouped|
    ensures forall g :: 0 <= g < |grouped| ==>
      sims[g] == (Similarity(documentCount, QueryShares(lemmatizedQuery), grouped[g], ln, sqrt), grouped[g].website)
  {
    var queryTfs := QueryTfs(lemmatizedQuery);
    sims := [];
    for g := 0 to |grouped|
      invariant |sims| == g
      invariant forall h :: 0 <= h < g ==>
        sims[h] == (Similarity(documentCount, queryTfs, grouped[h], ln, sqrt), grouped[h].website)
    {
      var keywords, website := grouped[g].keywords, grouped[g].website;
      var dot, sumQ, sumD := Accumulate(queryTfs, documentCount, keywords, website.wordCount, ln);
      var denom := sqrt(sumQ) * sqrt(sumD);
      var similarity := if denom > 0.0 then dot / denom else 0.0;
      assert similarity == Similarity(documentCount, queryTfs, grouped[g], ln, sqrt);
      sims := sims + [(similarity, website)];
    }
  }
}
