/** The `/api/query` handler: normalise and lemmatise the query, fetch the
    matching `website_keywords` rows joined with their keyword and website,
    group them by website, score each website by TF-IDF, proximity and rank,
    and answer the websites in descending score. The clock and the
    lemma table are parameters. */
module Server {
  import opened Seqs
  import opened Text
  import opened Schema
  import Crawler
  import Proximity
  import TfIdf

  // ---------------------------------------------------------------------
  // Query normalisation

  predicate LongerThanOne(w: string)
  {
    |w| > 1
  }

  /** What a normalised query character is: `[a-z0-9_]`. */
  predicate IsQueryChar(c: char)
  {
    IsWordChar(c) && !('A' <= c <= 'Z')
  }

  lemma QueryPieceChar(text: string, k: nat, i: nat)
    requires k < |SplitSpaceRuns(ReplaceNonWord(ToLower(text)))|
    requires i < |SplitSpaceRuns(ReplaceNonWord(ToLower(text)))[k]|
    ensures IsQueryChar(SplitSpaceRuns(ReplaceNonWord(ToLower(text)))[k][i])
  {
    var t := ToLower(text);
    var r := ReplaceNonWord(t);
    var c := SplitSpaceRuns(r)[k][i];
    SplitSpaceRunsChars(r, k, i);
    var j :| 0 <= j < |r| && r[j] == c;
    assert !IsSpace(c);
    assert t[j] == LowerChar(text[j]);
  }

  /** `queryText.toLowerCase().replace(/[^\w\s]/g, " ").split(/\s+/)
      .filter((w) => w.length > 1)`: tokens of at least two characters,
      each a lower-case letter, a digit or `_`. */
  function QueryWords(queryText: string): (words: seq<string>)
    ensures forall k :: 0 <= k < |words| ==> |words[k]| >= 2
    ensures forall k, i :: 0 <= k < |words| && 0 <= i < |words[k]| ==> IsQueryChar(words[k][i])
  {
    var pieces := SplitSpaceRuns(ReplaceNonWord(ToLower(queryText)));
    var words := Filter(pieces, LongerThanOne);
    assert forall k, i :: 0 <= k < |words| && 0 <= i < |words[k]| ==> IsQueryChar(words[k][i]) by {
      forall k, i | 0 <= k < |words| && 0 <= i < |words[k]| ensures IsQueryChar(words[k][i]) {
        assert words[k] in pieces;
        var m :| 0 <= m < |pieces| && pieces[m] == words[k];
        QueryPieceChar(queryText, m, i);
      }
    }
    words
  }

  /** A query that is already one normalised token is kept as it is;
      digits and `_` stay (unlike the crawler's filter). */
  lemma NormalTokenKept(w: string)
    requires |w| >= 2 && forall i :: 0 <= i < |w| ==> IsQueryChar(w[i])
    ensures QueryWords(w) == [w]
  {
    assert ToLower(w) == w;
    assert ReplaceNonWord(w) == w;
    SplitSpaceRunsNoSpace(w);
    assert [w][..0] == [];
  }

  /** `Promise.all(words.map(loadLemmatizedWord))`. */
  function LemmatizedQuery(lemmas: map<string, string>, queryText: string): (q: seq<string>)
    ensures |q| == |QueryWords(queryText)|
    ensures forall k :: 0 <= k < |q| ==> q[k] == Crawler.Lemmatize(lemmas, QueryWords(queryText)[k])
  {
    var words := QueryWords(queryText);
    seq(|words|, k requires 0 <= k < |words| => Crawler.Lemmatize(lemmas, words[k]))
  }

  // ---------------------------------------------------------------------
  // Fetching the rows

  /** A `website_keywords` row with its `Keyword` and `Website`. */
  datatype Row = Row(word: string, documentsContaining: int, occurrences: int, position: int, website: Website)

  function Matches(q: seq<string>): Posting -> bool
  {
    (p: Posting) => p.word in q
  }

  function ByPosition(a: Row, b: Row): bool
  {
    a.position <= b.position
  }

  lemma ByPositionTotal()
    ensures TotalPreorder(ByPosition)
  {
  }

  /** What every fetched row satisfies. */
  ghost predicate RowOk(index: SearchIndex, q: seq<string>, r: Row)
    reads index
  {
    && r.word in q
    && r.website.url in index.websites && index.websites[r.website.url] == r.website
    && r.documentsContaining >= 1
    && 1 <= r.occurrences <= r.website.wordCount
  }

  /** One posting joined with its keyword and website. */
  function RowFor(websites: map<string, Website>, keywords: map<string, int>, p: Posting): Row
    requires p.url in websites && p.word in keywords
  {
    Row(p.word, keywords[p.word], p.occurrences, p.position, websites[p.url])
  }

  /** The inner join of postings with their keyword and website. */
  function Join(websites: map<string, Website>, keywords: map<string, int>, ps: seq<Posting>): (rows: seq<Row>)
    requires forall k :: 0 <= k < |ps| ==> ps[k].url in websites && ps[k].word in keywords
    ensures |rows| == |ps|
    ensures forall k :: 0 <= k < |ps| ==> rows[k] == RowFor(websites, keywords, ps[k])
  {
    seq(|ps|, k requires 0 <= k < |ps| => RowFor(websites, keywords, ps[k]))
  }

  /** The postings whose word is in the query (`"$Keyword.word$": q`),
      joined, in stored order. */
  function MatchedRows(index: SearchIndex, q: seq<string>): (rows: seq<Row>)
    reads index
    requires index.Valid()
    ensures |rows| == |Filter(index.postings, Matches(q))|
    ensures forall k :: 0 <= k < |rows| ==> RowOk(index, q, rows[k])
  {
    var matched := Filter(index.postings, Matches(q));
    assert forall k :: 0 <= k < |matched| ==> matched[k] in index.postings;
    var rows := Join(index.websites, index.keywords, matched);
    assert forall k :: 0 <= k < |rows| ==> RowOk(index, q, rows[k]) by {
      forall k | 0 <= k < |rows| ensures RowOk(index, q, rows[k]) {
        var j :| 0 <= j < |index.postings| && index.postings[j] == matched[k];
      }
    }
    rows
  }

  /** The row of a stored posting whose word is in the query. */
  ghost predicate FromMatchingPosting(index: SearchIndex, q: seq<string>, r: Row)
    reads index
    requires index.Valid()
  {
    exists j :: 0 <= j < |index.postings| && index.postings[j].word in q &&
      r == RowFor(index.websites, index.keywords, index.postings[j])
  }

  /** The fetch returns exactly the joins of the matching postings: every
      row comes from a stored posting whose word is in the query, and every
      such posting gives a row, as often as it is stored. */
  lemma MatchedRowsExact(index: SearchIndex, q: seq<string>)
    requires index.Valid()
    ensures forall k :: 0 <= k < |MatchedRows(index, q)| ==> FromMatchingPosting(index, q, MatchedRows(index, q)[k])
    ensures forall j :: 0 <= j < |index.postings| && index.postings[j].word in q ==>
      RowFor(index.websites, index.keywords, index.postings[j]) in MatchedRows(index, q)
    ensures forall p :: (multiset(Filter(index.postings, Matches(q)))[p] ==
                          if p.word in q then multiset(index.postings)[p] else 0)
  {
    var matched := Filter(index.postings, Matches(q));
    var rows := MatchedRows(index, q);
    forall k | 0 <= k < |rows| ensures FromMatchingPosting(index, q, rows[k]) {
      assert matched[k] in index.postings;
      var j :| 0 <= j < |index.postings| && index.postings[j] == matched[k];
      assert rows[k] == RowFor(index.websites, index.keywords, index.postings[j]);
    }
    forall j | 0 <= j < |index.postings| && index.postings[j].word in q
      ensures RowFor(index.websites, index.keywords, index.postings[j]) in rows
    {
      var p := index.postings[j];
      assert Matches(q)(p);
      assert p in matched;
      var k :| 0 <= k < |matched| && matched[k] == p;
      assert rows[k] == RowFor(index.websites, index.keywords, p);
    }
    forall p ensures multiset(matched)[p] == if p.word in q then multiset(index.postings)[p] else 0 {
      FilterCounts(index.postings, Matches(q), p);
    }
  }

  /** `fetchKeywords`: the matched rows ordered by ascending position (ties
      in stored order). */
  function FetchKeywords(index: SearchIndex, q: seq<string>): (rows: seq<Row>)
    reads index
    requires index.Valid()
    ensures multiset(rows) == multiset(MatchedRows(index, q))
    ensures SortedBy(rows, ByPosition)
    ensures forall k :: 0 <= k < |rows| ==> RowOk(index, q, rows[k])
  {
    var matched := MatchedRows(index, q);
    var rows := SortBy(matched, ByPosition);
    ByPositionTotal();
    SortBySorted(matched, ByPosition);
    assert forall k :: 0 <= k < |rows| ==> rows[k] in multiset(matched);
    rows
  }

  // ---------------------------------------------------------------------
  // Grouping by website

  function RowUrls(rows: seq<Row>): (us: seq<string>)
    ensures |us| == |rows| && forall k :: 0 <= k < |rows| ==> us[k] == rows[k].website.url
  {
    seq(|rows|, k requires 0 <= k < |rows| => rows[k].website.url)
  }

  function Hit(r: Row): KeywordHit
  {
    KeywordHit(r.word, r.occurrences, r.documentsContaining, r.position)
  }

  /** The keywords of the first `n` rows that belong to `url`, in row order. */
  function HitsFor(rows: seq<Row>, n: nat, url: string): seq<KeywordHit>
    requires n <= |rows|
  {
    if n == 0 then []
    else HitsFor(rows, n - 1, url) + if rows[n - 1].website.url == url then [Hit(rows[n - 1])] else []
  }

  /** A url none of the first `n` rows belongs to has no keywords yet. */
  lemma {:induction false} HitsForAbsent(rows: seq<Row>, n: nat, url: string)
    requires n <= |rows| && url !in RowUrls(rows)[..n]
    ensures HitsFor(rows, n, url) == []
  {
    if n > 0 {
      assert RowUrls(rows)[n - 1] == rows[n - 1].website.url;
      assert RowUrls(rows)[..n - 1] <= RowUrls(rows)[..n];
      HitsForAbsent(rows, n - 1, url);
    }
  }

  function Sites(grouped: seq<Group>): (us: seq<string>)
    ensures |us| == |grouped| && forall g :: 0 <= g < |grouped| ==> us[g] == grouped[g].website.url
  {
    seq(|grouped|, g requires 0 <= g < |grouped| => grouped[g].website.url)
  }

  /** One group per distinct website, in order of first appearance, with
      the website of its first row and the keywords of all its rows. */
  function Grouping(rows: seq<Row>): (grouped: seq<Group>)
    ensures Sites(grouped) == Distinct(RowUrls(rows))
  {
    var urls := RowUrls(rows);
    var keys := Distinct(urls);
    var grouped := seq(|keys|, g requires 0 <= g < |keys| =>
      Group(HitsFor(rows, |rows|, keys[g]), rows[FirstIndex(urls, keys[g])].website));
    assert Sites(grouped) == keys;
    grouped
  }

  /** `siteMap` after the first `n` rows, keyed by the urls seen. */
  ghost predicate SiteMapAfter(rows: seq<Row>, n: nat, siteMap: map<string, Group>)
    requires n <= |rows|
  {
    && (forall u :: u in siteMap <==> u in RowUrls(rows)[..n])
    && forall u :: u in siteMap ==>
      u in RowUrls(rows) && siteMap[u] == Group(HitsFor(rows, n, u), rows[FirstIndex(RowUrls(rows), u)].website)
  }

  lemma SiteMapStep(rows: seq<Row>, i: nat, siteMap: map<string, Group>)
    requires i < |rows| && SiteMapAfter(rows, i, siteMap)
    ensures
      var key := rows[i].website.url;
      var entry := if key in siteMap then siteMap[key] else Group([], rows[i].website);
      SiteMapAfter(rows, i + 1, siteMap[key := entry.(keywords := entry.keywords + [Hit(rows[i])])])
  {
    var urls := RowUrls(rows);
    var key := rows[i].website.url;
    assert urls[..i + 1] == urls[..i] + [key];
    if key !in siteMap {
      FirstIndexUnique(urls, key, i);
      HitsForAbsent(rows, i, key);
    }
  }

  /** The `siteMap` loop and `Array.from(siteMap.values())`: a JavaScript
      `Map` lists its values in insertion order, kept here as `order`. */
  method GroupRows(rows: seq<Row>) returns (grouped: seq<Group>)
    ensures grouped == Grouping(rows)
  {
    var order: seq<string> := [];
    var siteMap: map<string, Group> := map[];
    ghost var urls := RowUrls(rows);
    for i := 0 to |rows|
      invariant order == Distinct(urls[..i])
      invariant SiteMapAfter(rows, i, siteMap)
    {
      var row := rows[i];
      var key := row.website.url;
      SiteMapStep(rows, i, siteMap);
      DistinctPrefixStep(urls, i);
      assert urls[i] == key;
      if !(key in siteMap) {
        assert key !in urls[..i];
        siteMap := siteMap[key := Group([], row.website)];
        order := order + [key];
      } else {
        assert key in urls[..i];
      }
      siteMap := siteMap[key := siteMap[key].(keywords := siteMap[key].keywords + [Hit(row)])];
    }
    assert urls[..|rows|] == urls;
    grouped := seq(|order|, g requires 0 <= g < |order| => siteMap[order[g]]);
  }

  // ---------------------------------------------------------------------
  // What grouping keeps

  /** Every row's keyword is among the hits for its website. */
  lemma {:induction false} HitsForContains(rows: seq<Row>, n: nat, j: nat)
    requires j < n <= |rows|
    ensures Hit(rows[j]) in HitsFor(rows, n, rows[j].website.url)
  {
    if j < n - 1 {
      HitsForContains(rows, n - 1, j);
    }
  }

  /** Every hit comes from one of the first `n` rows of that url. */
  lemma {:induction false} HitOrigin(rows: seq<Row>, n: nat, url: string, k: nat) returns (j: nat)
    requires n <= |rows| && k < |HitsFor(rows, n, url)|
    ensures j < n && rows[j].website.url == url && HitsFor(rows, n, url)[k] == Hit(rows[j])
  {
    var prior := HitsFor(rows, n - 1, url);
    if k < |prior| {
      j := HitOrigin(rows, n - 1, url, k);
    } else {
      j := n - 1;
    }
  }

  /** Hits keep the order of their rows. */
  lemma {:induction false} HitsInRowOrder(rows: seq<Row>, n: nat, url: string, a: nat, b: nat) returns (ja: nat, jb: nat)
    requires n <= |rows| && a < b < |HitsFor(rows, n, url)|
    ensures ja < jb < n
    ensures HitsFor(rows, n, url)[a] == Hit(rows[ja]) && HitsFor(rows, n, url)[b] == Hit(rows[jb])
  {
    var prior := HitsFor(rows, n - 1, url);
    if b < |prior| {
      ja, jb := HitsInRowOrder(rows, n - 1, url, a, b);
    } else {
      ja := HitOrigin(rows, n - 1, url, a);
      jb := n - 1;
    }
  }

  /** `kw` is the keyword of some row of website `url`. */
  ghost predicate FromRowOf(rows: seq<Row>, url: string, kw: KeywordHit)
  {
    exists j :: 0 <= j < |rows| && rows[j].website.url == url && kw == Hit(rows[j])
  }

  /** Each group is a website of some row and holds at least that row's
      keyword; every keyword of the group comes from a row of its website. */
  lemma GroupOrigin(rows: seq<Row>, g: nat)
    requires g < |Grouping(rows)|
    ensures Grouping(rows)[g].keywords != []
    ensures exists j :: 0 <= j < |rows| && Grouping(rows)[g].website == rows[j].website
    ensures forall k :: 0 <= k < |Grouping(rows)[g].keywords| ==>
      FromRowOf(rows, Grouping(rows)[g].website.url, Grouping(rows)[g].keywords[k])
  {
    var urls := RowUrls(rows);
    var keys := Distinct(urls);
    assert Sites(Grouping(rows))[g] == keys[g];
    var j := FirstIndex(urls, keys[g]);
    HitsForContains(rows, |rows|, j);
    forall k | 0 <= k < |Grouping(rows)[g].keywords|
      ensures FromRowOf(rows, Grouping(rows)[g].website.url, Grouping(rows)[g].keywords[k])
    {
      var i := HitOrigin(rows, |rows|, keys[g], k);
    }
  }

  /** Rows fetched in position order give every group its keywords in
      position order, which the proximity score relies on. */
  lemma GroupHitsByPosition(rows: seq<Row>, g: nat, a: nat, b: nat)
    requires SortedBy(rows, ByPosition)
    requires g < |Grouping(rows)| && a < b < |Grouping(rows)[g].keywords|
    ensures Grouping(rows)[g].keywords[a].position <= Grouping(rows)[g].keywords[b].position
  {
    var keys := Distinct(RowUrls(rows));
    assert Sites(Grouping(rows))[g] == keys[g];
    var ja, jb := HitsInRowOrder(rows, |rows|, keys[g], a, b);
    assert ByPosition(rows[ja], rows[jb]);
  }

  /** Websites appear in the order of their first row. */
  lemma GroupsInFirstRowOrder(rows: seq<Row>, g: nat, h: nat)
    requires g < h < |Grouping(rows)|
    ensures Grouping(rows)[g].website.url in RowUrls(rows) && Grouping(rows)[h].website.url in RowUrls(rows)
    ensures FirstIndex(RowUrls(rows), Grouping(rows)[g].website.url) < FirstIndex(RowUrls(rows), Grouping(rows)[h].website.url)
  {
    var urls := RowUrls(rows);
    assert Sites(Grouping(rows))[g] == Distinct(urls)[g];
    assert Sites(Grouping(rows))[h] == Distinct(urls)[h];
    DistinctOrder(urls, g, h);
  }

  /** The rows of a non-empty fetch give scoreable groups: the query is
      not empty, there is a group, and every group has a ranked website
      with words and keywords contained in some document. */
  lemma GroupingRankable(index: SearchIndex, q: seq<string>, rows: seq<Row>)
    requires index.Valid() && RanksPositive(index)
    requires rows != [] && forall k :: 0 <= k < |rows| ==> RowOk(index, q, rows[k])
    ensures Rankable(q, Grouping(rows))
  {
    var grouped := Grouping(rows);
    assert rows[0].word in q;
    assert RowUrls(rows)[0] in Distinct(RowUrls(rows));
    forall g | 0 <= g < |grouped|
      ensures TfIdf.Computable(grouped[g].keywords, grouped[g].website.wordCount)
      ensures grouped[g].website.rank >= 1
    {
      GroupOrigin(rows, g);
      var j :| 0 <= j < |rows| && grouped[g].website == rows[j].website;
      assert RowOk(index, q, rows[j]);
      forall k | 0 <= k < |grouped[g].keywords|
        ensures grouped[g].keywords[k].documentsContaining != 0
      {
        assert FromRowOf(rows, grouped[g].website.url, grouped[g].keywords[k]);
        var i :| 0 <= i < |rows| && grouped[g].keywords[k] == Hit(rows[i]);
        assert RowOk(index, q, rows[i]);
      }
    }
  }

  // ---------------------------------------------------------------------
  // Scoring and ranking

  /** Every stored website has a rank of at least 1 (its `top_sites`
      rank). */
  ghost predicate RanksPositive(index: SearchIndex)
    reads index
  {
    forall url :: url in index.websites ==> index.websites[url].rank >= 1
  }

  /** The groups can be scored: both per-group scores are defined and the
      greatest rank is not zero. */
  ghost predicate Rankable(q: seq<string>, grouped: seq<Group>)
  {
    && |q| > 0
    && grouped != []
    && TfIdf.AllComputable(grouped)
    && forall g :: 0 <= g < |grouped| ==> grouped[g].website.rank >= 1
  }

  /** `Math.max(...grouped.map((g) => g.website.rank))`. */
  function MaxRank(grouped: seq<Group>): (m: int)
    requires grouped != []
    ensures forall g :: 0 <= g < |grouped| ==> grouped[g].website.rank <= m
    ensures exists g :: 0 <= g < |grouped| && grouped[g].website.rank == m
  {
    var last := grouped[|grouped| - 1].website.rank;
    if |grouped| == 1 then last
    else
      var prior := MaxRank(grouped[..|grouped| - 1]);
      if prior >= last then prior else last
  }

  /** `(1 - website.rank / maxRank) * 0.35`. */
  function RankScore(rank: int, maxRank: int): real
    requires maxRank != 0
  {
    (1.0 - rank as real / maxRank as real) * 0.35
  }

  /** A rank between 1 and the greatest adds less than 0.35 and nothing at
      the greatest rank; a better (smaller) rank always adds more. */
  lemma RankScoreBounds(rank: int, maxRank: int)
    requires 1 <= rank <= maxRank
    ensures 0.0 <= RankScore(rank, maxRank) < 0.35
    ensures rank == maxRank ==> RankScore(rank, maxRank) == 0.0
  {
    var r := rank as real / maxRank as real;
    assert r * maxRank as real == rank as real;
    assert 0.0 < r <= 1.0;
  }

  lemma RankScoreOrder(better: int, worse: int, maxRank: int)
    requires 1 <= better < worse <= maxRank
    ensures RankScore(better, maxRank) > RankScore(worse, maxRank)
  {
    var m := maxRank as real;
    assert (better as real / m) * m == better as real;
    assert (worse as real / m) * m == worse as real;
    assert better as real / m < worse as real / m;
  }

  /** `(tf + proximity * 0.2 + rankScore) / 3`. */
  function FinalScore(tf: real, proximity: real, rankScore: real): real
  {
    (tf + proximity * 0.2 + rankScore) / 3.0
  }

  /** Between two websites equally relevant by TF-IDF and proximity, the
      better ranked one scores higher. */
  lemma BetterRankBreaksTie(tf: real, proximity: real, better: int, worse: int, maxRank: int)
    requires 1 <= better < worse <= maxRank
    ensures FinalScore(tf, proximity, RankScore(better, maxRank)) > FinalScore(tf, proximity, RankScore(worse, maxRank))
  {
    RankScoreOrder(better, worse, maxRank);
  }

  datatype Scored = Scored(website: Website, score: real)

  function WebsiteOf(s: Scored): Website
  {
    s.website
  }

  function GroupWebsite(g: Group): Website
  {
    g.website
  }

  /** The `tfidf.map(...)` step: each website with its final score. */
  function ScoreAll(tfidf: seq<(real, Website)>, proximities: seq<real>, maxRank: int): (scored: seq<Scored>)
    requires |proximities| == |tfidf| && maxRank != 0
    ensures |scored| == |tfidf|
    ensures forall i :: 0 <= i < |tfidf| ==> scored[i].website == tfidf[i].1
  {
    seq(|tfidf|, i requires 0 <= i < |tfidf| =>
      Scored(tfidf[i].1, FinalScore(tfidf[i].0, proximities[i], RankScore(tfidf[i].1.rank, maxRank))))
  }

  /** The scores of the groups, in group order: TF-IDF similarity,
      proximity and rank combined. */
  function Scores(documentCount: int, q: seq<string>, grouped: seq<Group>, ln: real -> real, sqrt: real -> real): (scored: seq<Scored>)
    requires Rankable(q, grouped)
    ensures Map(scored, WebsiteOf) == Map(grouped, GroupWebsite)
  {
    var tfs := TfIdf.QueryShares(q);
    var tfidf := seq(|grouped|, g requires 0 <= g < |grouped| =>
      (TfIdf.Similarity(documentCount, tfs, grouped[g], ln, sqrt), grouped[g].website));
    var proximities := seq(|grouped|, g requires 0 <= g < |grouped| =>
      Proximity.ProximityScore(|q|, grouped[g].keywords));
    var scored := ScoreAll(tfidf, proximities, MaxRank(grouped));
    assert Map(scored, WebsiteOf) == Map(grouped, GroupWebsite);
    scored
  }

  /** Scoring the per-group results of the two scoring passes gives the
      scores of the groups. */
  lemma ScoresFromParts(documentCount: int, q: seq<string>, grouped: seq<Group>, ln: real -> real, sqrt: real -> real,
                        tfidf: seq<(real, Website)>, proximities: seq<real>)
    requires Rankable(q, grouped)
    requires |tfidf| == |grouped| && forall g :: 0 <= g < |grouped| ==>
      tfidf[g] == (TfIdf.Similarity(documentCount, TfIdf.QueryShares(q), grouped[g], ln, sqrt), grouped[g].website)
    requires |proximities| == |grouped| && forall g :: 0 <= g < |grouped| ==>
      proximities[g] == Proximity.ProximityScore(|q|, grouped[g].keywords)
    ensures ScoreAll(tfidf, proximities, MaxRank(grouped)) == Scores(documentCount, q, grouped, ln, sqrt)
  {
  }

  /** `(a, b) => b.score - a.score`: higher scores first. */
  function ScoreGe(a: Scored, b: Scored): bool
  {
    a.score >= b.score
  }

  lemma ScoreGeTotal()
    ensures TotalPreorder(ScoreGe)
  {
  }

  /** The scored websites sorted by descending score, ties in group order. */
  function Ranking(documentCount: int, q: seq<string>, grouped: seq<Group>, ln: real -> real, sqrt: real -> real): seq<Scored>
    requires Rankable(q, grouped)
  {
    SortBy(Scores(documentCount, q, grouped, ln, sqrt), ScoreGe)
  }

  /** The ranking is ordered by descending score, holds exactly the scored
      groups, and answers every grouped website exactly once per group. */
  lemma RankingOrderedPermutation(documentCount: int, q: seq<string>, grouped: seq<Group>, ln: real -> real, sqrt: real -> real)
    requires Rankable(q, grouped)
    ensures SortedBy(Ranking(documentCount, q, grouped, ln, sqrt), ScoreGe)
    ensures multiset(Ranking(documentCount, q, grouped, ln, sqrt)) == multiset(Scores(documentCount, q, grouped, ln, sqrt))
    ensures multiset(Map(Ranking(documentCount, q, grouped, ln, sqrt), WebsiteOf)) == multiset(Map(grouped, GroupWebsite))
  {
    var scored := Scores(documentCount, q, grouped, ln, sqrt);
    ScoreGeTotal();
    SortBySorted(scored, ScoreGe);
    SortByMap(scored, ScoreGe, WebsiteOf);
  }

  // ---------------------------------------------------------------------
  // The handler

  /** `req.body.query`: a string, or anything else (a missing field, a
      number), on which `toLowerCase` throws. */
  datatype QueryBody = QueryText(text: string) | NonText

  /** The JSON answer: `{ executionSeconds, results }` or a status with
      `{ error }`. */
  datatype Response = Results(executionSeconds: real, results: seq<Website>) | ServerError(status: int, error: string)

  /** `POST /api/query`. `elapsedMs` is `Date.now() - start`. */
  method HandleQuery(index: SearchIndex, lemmas: map<string, string>, body: QueryBody,
                     ln: real -> real, sqrt: real -> real, elapsedMs: int)
    returns (response: Response)
    requires index.Valid() && RanksPositive(index)
    ensures body.NonText? ==> response == ServerError(500, "Internal server error")
    ensures body.QueryText? ==>
      var q := LemmatizedQuery(lemmas, body.text);
      var rows := FetchKeywords(index, q);
      && (rows == [] ==> response == Results(0.0, []))
      && (rows != [] ==>
            Rankable(q, Grouping(rows)) &&
            response == Results(elapsedMs as real / 1000.0,
                                Map(Ranking(index.DocumentCount(), q, Grouping(rows), ln, sqrt), WebsiteOf)))
  {
    if body.NonText? {
      return ServerError(500, "Internal server error");
    }
    var lemmatized := LemmatizedQuery(lemmas, body.text);
    var raw := FetchKeywords(index, lemmatized);
    if |raw| == 0 {
      return Results(0.0, []);
    }
    var grouped := GroupRows(raw);
    GroupingRankable(index, lemmatized, raw);
    var documentCount := index.DocumentCount();
    var tfidf := TfIdf.GetTfIdfScores(documentCount, lemmatized, grouped, ln, sqrt);
    var proximities := Proximity.GetProximities(lemmatized, grouped);
    var maxRank := MaxRank(grouped);
    var all := ScoreAll(tfidf, proximities, maxRank);
    ScoresFromParts(documentCount, lemmatized, grouped, ln, sqrt, tfidf, proximities);
    var scored := SortBy(all, ScoreGe);
    var results := Map(scored, WebsiteOf);
    response := Results(elapsedMs as real / 1000.0, results);
  }
}
