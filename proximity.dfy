/** `getProximities`: how closely and how completely the matched keywords of
    each website cover the query. Keywords arrive in ascending position;
    they are cut into clusters of distinct words (a repeated word closes
    the cluster), and short gaps between neighbouring positions count as
    distance. Arithmetic is on `real`. */
module Proximity {
  import opened Schema

  // ---------------------------------------------------------------------
  // Specification

  /** The clusters closed so far and the open cluster, after reading `kws`. */
  function Walk(kws: seq<KeywordHit>): (w: (seq<set<string>>, set<string>))
    ensures kws != [] ==> |w.1| > 0
    decreases |kws|
  {
    if kws == [] then ([], {})
    else
      var prior := Walk(kws[..|kws| - 1]);
      var x := kws[|kws| - 1].word;
      if x in prior.1 then (prior.0 + [prior.1], {x}) else (prior.0, prior.1 + {x})
  }

  /** The closed clusters and, when not empty, the open one. */
  function Clusters(kws: seq<KeywordHit>): (cs: seq<set<string>>)
    ensures cs == [] <==> kws == []
  {
    var w := Walk(kws);
    if |w.1| > 0 then w.0 + [w.1] else w.0
  }

  /** Sum over the clusters of each cluster's share of the query. */
  function FulfilmentTotal(cs: seq<set<string>>, qlen: nat): real
    requires qlen > 0
  {
    if cs == [] then 0.0
    else FulfilmentTotal(cs[..|cs| - 1], qlen) + |cs[|cs| - 1]| as real / qlen as real
  }

  function Positions(kws: seq<KeywordHit>): (p: seq<int>)
    ensures |p| == |kws| && forall k :: 0 <= k < |kws| ==> p[k] == kws[k].position
  {
    seq(|kws|, k requires 0 <= k < |kws| => kws[k].position)
  }

  /** The number of words strictly between two neighbouring positions. */
  function Gap(p: seq<int>, k: nat): int
    requires k + 1 < |p|
  {
    p[k + 1] - p[k] - 1
  }

  /** The sum of the first `n` gaps that are at most `bound`. */
  function GapTotal(p: seq<int>, n: nat, bound: int): int
    requires n == 0 || n < |p|
  {
    if n == 0 then 0
    else GapTotal(p, n - 1, bound) + (if Gap(p, n - 1) <= bound then Gap(p, n - 1) else 0)
  }

  /** `totalDist`: every gap between neighbours that is at most `bound`. */
  function TotalDist(p: seq<int>, bound: int): int
  {
    GapTotal(p, if |p| == 0 then 0 else |p| - 1, bound)
  }

  /** The distance penalty times the average fulfilment of a cluster. */
  function Score(totalDist: int, count: nat, fulfilmentTotal: real, clusterCount: nat): real
    requires count > 0 && clusterCount > 0
  {
    (1.0 - totalDist as real / count as real) * (fulfilmentTotal / clusterCount as real)
  }

  /** The proximity score of one group against a query of `qlen` words. */
  function ProximityScore(qlen: nat, kws: seq<KeywordHit>): real
    requires qlen > 0 || kws == []
  {
    var cs := Clusters(kws);
    if kws == [] then 0.0
    else Score(TotalDist(Positions(kws), qlen), |kws|, FulfilmentTotal(cs, qlen), |cs|)
  }

  // ---------------------------------------------------------------------
  // Properties

  /** The total number of words over all clusters. */
  function SizeTotal(cs: seq<set<string>>): nat
  {
    if cs == [] then 0 else SizeTotal(cs[..|cs| - 1]) + |cs[|cs| - 1]|
  }

  /** The keywords whose word is already in the open cluster when read. */
  function Repeats(kws: seq<KeywordHit>): nat
    decreases |kws|
  {
    if kws == [] then 0
    else
      var prefix := kws[..|kws| - 1];
      Repeats(prefix) + if kws[|kws| - 1].word in Walk(prefix).1 then 1 else 0
  }

  lemma {:induction false} SizeTotalAppend(cs: seq<set<string>>, c: set<string>)
    ensures SizeTotal(cs + [c]) == SizeTotal(cs) + |c|
  {
    assert (cs + [c])[..|cs|] == cs;
  }

  /** Summing shares of the query is sharing the summed sizes. */
  lemma {:induction false} FulfilmentBySize(cs: seq<set<string>>, qlen: nat)
    requires qlen > 0
    ensures FulfilmentTotal(cs, qlen) == SizeTotal(cs) as real / qlen as real
  {
    if cs != [] {
      FulfilmentBySize(cs[..|cs| - 1], qlen);
    }
  }

  /** Every keyword adds its word to exactly one cluster, and a closed
      cluster is counted once per repeated word. */
  lemma {:induction false} WalkCounts(kws: seq<KeywordHit>)
    ensures SizeTotal(Walk(kws).0) + |Walk(kws).1| == |kws|
    ensures |Walk(kws).0| == Repeats(kws)
    decreases |kws|
  {
    if kws != [] {
      var prefix := kws[..|kws| - 1];
      WalkCounts(prefix);
      var prior := Walk(prefix);
      var x := kws[|kws| - 1].word;
      if x in prior.1 {
        SizeTotalAppend(prior.0, prior.1);
      } else {
        assert |prior.1 + {x}| == |prior.1| + 1;
      }
    }
  }

  /** Cluster sizes add up to the number of keywords. */
  lemma ClusterSizes(kws: seq<KeywordHit>)
    ensures SizeTotal(Clusters(kws)) == |kws|
  {
    WalkCounts(kws);
    var w := Walk(kws);
    if |w.1| > 0 {
      SizeTotalAppend(w.0, w.1);
    }
  }

  /** `fulfillmentTotal` is the number of keywords over the query length. */
  lemma FulfilmentIsCoverage(qlen: nat, kws: seq<KeywordHit>)
    requires qlen > 0
    ensures FulfilmentTotal(Clusters(kws), qlen) == |kws| as real / qlen as real
  {
    ClusterSizes(kws);
    FulfilmentBySize(Clusters(kws), qlen);
  }

  /** A non-empty keyword list has one cluster more than it has repeats. */
  lemma ClusterCount(kws: seq<KeywordHit>)
    requires kws != []
    ensures |Clusters(kws)| == 1 + Repeats(kws)
  {
    WalkCounts(kws);
  }

  /** The score in closed form: the fulfilment total is the keyword count
      over the query length, and there is one cluster more than repeats. */
  lemma ScoreClosedForm(qlen: nat, kws: seq<KeywordHit>)
    requires qlen > 0 && kws != []
    ensures ProximityScore(qlen, kws) ==
      Score(TotalDist(Positions(kws), qlen), |kws|, |kws| as real / qlen as real, 1 + Repeats(kws))
  {
    FulfilmentIsCoverage(qlen, kws);
    ClusterCount(kws);
  }

  /** A group with no keywords scores 0. */
  lemma EmptyGroupScoresZero(qlen: nat)
    ensures ProximityScore(qlen, []) == 0.0
  {
  }

  ghost predicate StrictlyIncreasing(p: seq<int>)
  {
    forall k :: 0 <= k < |p| - 1 ==> p[k] < p[k + 1]
  }

  /** With strictly increasing positions every counted gap lies in
      [0, bound], so the first `n` of them sum to between 0 and n * bound. */
  lemma {:induction false} GapTotalBounds(p: seq<int>, n: nat, bound: int)
    requires n == 0 || n < |p|
    requires StrictlyIncreasing(p) && bound >= 0
    ensures 0 <= GapTotal(p, n, bound) <= n * bound
  {
    if n > 0 {
      GapTotalBounds(p, n - 1, bound);
      assert p[n - 1] < p[n];
    }
  }

  /** The worked example: query [a, b] met at positions 1 and 2 forms one
      full cluster with no distance, scoring 1. */
  lemma AdjacentQueryWordsScoreOne(a: string, b: string, occurrences: int, documents: int)
    requires a != b
    ensures ProximityScore(2, [KeywordHit(a, occurrences, documents, 1), KeywordHit(b, occurrences, documents, 2)]) == 1.0
  {
    var kws := [KeywordHit(a, occurrences, documents, 1), KeywordHit(b, occurrences, documents, 2)];
    assert kws[..1] == [kws[0]] && kws[..1][..0] == [];
    assert Walk(kws[..1]) == ([], {a}) by {
      assert Walk(kws[..1][..0]) == ([], {});
      assert {} + {a} == {a};
    }
    assert {a} + {b} == {a, b};
    assert Walk(kws) == ([], {a, b});
    assert Clusters(kws) == [{a, b}];
    assert [{a, b}][..0] == [];
    assert |{a, b}| == 2;
    assert Positions(kws) == [1, 2];
    assert FulfilmentTotal([{a, b}], 2) == 1.0;
    assert TotalDist([1, 2], 2) == 0;
  }

  /** The score is not clamped: three query words, each three words apart,
      give a distance larger than the keyword count and a score of -1. */
  lemma SpreadKeywordsScoreNegative(a: string, b: string, c: string)
    requires a != b && b != c && a != c
    ensures ProximityScore(3, [KeywordHit(a, 1, 1, 1), KeywordHit(b, 1, 1, 5), KeywordHit(c, 1, 1, 9)]) == -1.0
  {
    var kws := [KeywordHit(a, 1, 1, 1), KeywordHit(b, 1, 1, 5), KeywordHit(c, 1, 1, 9)];
    assert kws[..2] == [kws[0], kws[1]] && kws[..2][..1] == [kws[0]] && kws[..2][..1][..0] == [];
    assert Walk(kws[..2][..1]) == ([], {a}) by {
      assert Walk(kws[..2][..1][..0]) == ([], {});
      assert {} + {a} == {a};
    }
    assert {a} + {b} == {a, b};
    assert Walk(kws[..2]) == ([], {a, b});
    assert {a, b} + {c} == {a, b, c};
    assert Walk(kws) == ([], {a, b, c});
    assert |{a, b, c}| == 3;
    assert Clusters(kws) == [{a, b, c}];
    assert [{a, b, c}][..0] == [];
    assert Positions(kws) == [1, 5, 9];
    assert FulfilmentTotal([{a, b, c}], 3) == 1.0;
    assert TotalDist([1, 5, 9], 3) == 6;
  }

  // ---------------------------------------------------------------------
  // The computation

  /** The scores of all groups, one per group in group order. */
  method GetProximities(lemmatizedQuery: seq<string>, grouped: seq<Group>) returns (proximities: seq<real>)
    requires |lemmatizedQuery| > 0 || forall g :: 0 <= g < |grouped| ==> grouped[g].keywords == []
    ensures |proximities| == |grouped|
    ensures forall g :: 0 <= g < |grouped| ==>
      proximities[g] == ProximityScore(|lemmatizedQuery|, grouped[g].keywords)
  {
    proximities := [];
    for g := 0 to |grouped|
      invariant |proximities| == g
      invariant forall h :: 0 <= h < g ==>
        proximities[h] == ProximityScore(|lemmatizedQuery|, grouped[h].keywords)
    {
      var score := GroupProximity(|lemmatizedQuery|, grouped[g].keywords);
      proximities := proximities + [score];
    }
  }

  /** The body of the outer loop: the score of one group. */
  method GroupProximity(qlen: nat, keywords: seq<KeywordHit>) returns (proximityScore: real)
    requires qlen > 0 || keywords == []
    ensures proximityScore == ProximityScore(qlen, keywords)
  {
    var clusters, fulfillmentTotal, positions := BuildClusters(qlen, keywords);
    var clusterFulfill := if |clusters| > 0 then fulfillmentTotal / |clusters| as real else 0.0;
    var totalDist := SumGaps(positions, qlen);
    proximityScore := if |clusters| > 0 && |keywords| > 0 then
      (1.0 - totalDist as real / |keywords| as real) * clusterFulfill
    else 0.0;
  }

  /** The first loop: clusters, their total fulfilment and the positions. */
  method BuildClusters(qlen: nat, keywords: seq<KeywordHit>)
    returns (clusters: seq<set<string>>, fulfillmentTotal: real, positions: seq<int>)
    requires qlen > 0 || keywords == []
    ensures clusters == Clusters(keywords)
    ensures positions == Positions(keywords)
    ensures clusters != [] ==> qlen > 0 && fulfillmentTotal == FulfilmentTotal(clusters, qlen)
  {
    clusters := [];
    var current: set<string> := {};
    fulfillmentTotal := 0.0;
    positions := [];
    for i := 0 to |keywords|
      invariant (clusters, current) == Walk(keywords[..i])
      invariant positions == Positions(keywords[..i])
      invariant fulfillmentTotal == if qlen > 0 then FulfilmentTotal(clusters, qlen) else 0.0
    {
      var kw := keywords[i];
      WalkSnoc(keywords, i);
      positions := positions + [kw.position];
      if kw.word in current {
        FulfilmentSnoc(clusters, current, qlen);
        fulfillmentTotal := fulfillmentTotal + |current| as real / qlen as real;
        clusters := clusters + [current];
        current := {};
      }
      current := current + {kw.word};
    }
    assert keywords[..|keywords|] == keywords;
    if |current| > 0 {
      FulfilmentSnoc(clusters, current, qlen);
      fulfillmentTotal := fulfillmentTotal + |current| as real / qlen as real;
      clusters := clusters + [current];
    }
  }

  /** One more keyword extends the walk, and its position the positions. */
  lemma WalkSnoc(kws: seq<KeywordHit>, i: nat)
    requires i < |kws|
    ensures Walk(kws[..i + 1]) ==
      var prior := Walk(kws[..i]);
      if kws[i].word in prior.1 then (prior.0 + [prior.1], {kws[i].word}) else (prior.0, prior.1 + {kws[i].word})
    ensures Positions(kws[..i + 1]) == Positions(kws[..i]) + [kws[i].position]
  {
    assert kws[..i + 1][..i] == kws[..i];
  }

  /** Closing one more cluster adds its share of the query. */
  lemma FulfilmentSnoc(cs: seq<set<string>>, c: set<string>, qlen: nat)
    requires qlen > 0
    ensures FulfilmentTotal(cs + [c], qlen) == FulfilmentTotal(cs, qlen) + |c| as real / qlen as real
  {
    assert (cs + [c])[..|cs|] == cs;
  }

  /** The second loop: the distance summed over the short gaps. */
  method SumGaps(positions: seq<int>, bound: int) returns (totalDist: int)
    ensures totalDist == TotalDist(positions, bound)
  {
    totalDist := 0;
    var i := 0;
    while i + 1 < |positions|
      invariant i == 0 || i < |positions|
      invariant totalDist == GapTotal(positions, i, bound)
    {
      var dist := positions[i + 1] - positions[i] - 1;
      if dist <= bound {
        totalDist := totalDist + dist;
      }
      i := i + 1;
    }
  }
}
