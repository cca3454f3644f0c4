/** The four stored relations: the crawl frontier (`top_sites`) and the
    search index (`websites`, `keywords`, `website_keywords`). Surrogate
    UUID keys are left out: a site and a website are identified by their
    unique URL, a keyword by its unique word. Times are milliseconds. */
module Schema {
  import opened Wrappers
  import opened Seqs

  /** One row of `top_sites`: a site waiting to be crawled. */
  datatype Origin = Origin(
    url: string,
    rank: int,
    scraped: bool,
    attemptCount: nat,
    nextAttempt: Option<int>,
    lastError: Option<string>)

  /** A freshly seeded row: every column but `url` and `rank` at its default. */
  function NewOrigin(url: string, rank: int): (o: Origin)
    ensures o.url == url && o.rank == rank
    ensures !o.scraped && o.attemptCount == 0 && o.nextAttempt == None && o.lastError == None
  {
    Origin(url, rank, false, 0, None, None)
  }

  function Urls(rows: seq<Origin>): (us: seq<string>)
    ensures |us| == |rows|
    ensures forall i :: 0 <= i < |rows| ==> us[i] == rows[i].url
  {
    seq(|rows|, i requires 0 <= i < |rows| => rows[i].url)
  }

  /** One row of `websites`. */
  datatype Website = Website(url: string, title: string, description: string, wordCount: int, rank: int)

  /** One row of `website_keywords`: how often and where first a keyword
      occurs on a website. */
  datatype Posting = Posting(url: string, word: string, occurrences: int, position: int)

  /** One matched keyword of a website as the ranking sees it: the
      posting's counts joined with the keyword's document frequency. */
  datatype KeywordHit = KeywordHit(word: string, occurrences: int, documentsContaining: int, position: int)

  /** The matched keywords of one website, in row order. */
  datatype Group = Group(keywords: seq<KeywordHit>, website: Website)

  /** The `top_sites` table. `url` is unique; a row carries a next attempt
      time exactly when it has been deferred at least once. */
  class TopSiteTable {
    var rows: seq<Origin>

    ghost predicate Valid()
      reads this
    {
      NoDuplicates(Urls(rows)) &&
      forall i :: 0 <= i < |rows| ==> (rows[i].attemptCount > 0 <==> rows[i].nextAttempt.Some?)
    }

    constructor ()
      ensures rows == [] && Valid()
    {
      rows := [];
    }

    /** `TopSite.count()`. */
    function Count(): (n: nat)
      reads this
      ensures n == |rows|
    {
      |rows|
    }

    /** `site.update(...)` on the row at index `i`: the url is kept, the
        other columns take the new values. */
    method Update(i: nat, o: Origin)
      requires i < |rows| && o.url == rows[i].url
      modifies this
      ensures rows == old(rows)[i := o]
    {
      rows := rows[i := o];
    }
  }

  /** The search index: `websites` keyed by url, `keywords` as the map from
      a word to its `documents_containing_word`, and the `website_keywords`
      rows in insertion order. */
  class SearchIndex {
    var websites: map<string, Website>
    var keywords: map<string, int>
    var postings: seq<Posting>

    /** What every stored index satisfies: each posting names a stored
        website and keyword, occurs at least once and at most as often as
        the website has words; every keyword is contained in some document. */
    ghost predicate Valid()
      reads this
    {
      (forall url :: url in websites ==> websites[url].url == url) &&
      (forall w :: w in keywords ==> keywords[w] >= 1) &&
      forall k :: 0 <= k < |postings| ==>
        var p := postings[k];
        p.url in websites && p.word in keywords &&
        1 <= p.occurrences <= websites[p.url].wordCount &&
        p.position >= 1
    }

    constructor ()
      ensures websites == map[] && keywords == map[] && postings == [] && Valid()
    {
      websites := map[];
      keywords := map[];
      postings := [];
    }

    /** `Website.count()`. */
    function DocumentCount(): (n: nat)
      reads this
      ensures n == |websites.Keys|
    {
      |websites.Keys|
    }
  }
}
