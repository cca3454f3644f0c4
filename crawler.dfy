/** The bookkeeping of one crawl: how a failure message is classified, which
    words of a page's text are kept, how the words are counted, and how a
    page is stored in the search index. The browser, DNS and HTTP calls
    enter as the outcomes they produced (`PageEnv`). */
module Crawler {
  import opened Wrappers
  import opened Seqs
  import opened Text
  import opened Schema
  import Robots

  /** What `crawl` returns: `true`, `false` (permanent failure) or `null`
      (retryable failure). */
  datatype CrawlResult = Indexed | Permanent | Retryable

  /** The message `validateUrl` throws when the URL does not parse or its
      host does not resolve. */
  const DnsFailureMarker: string := "Invalid URL or DNS failure"

  /** Messages that mark a failure worth retrying. */
  const RetryableCodes: seq<string> := [
    "ERR_BLOCKED_BY_CLIENT",
    "ERR_CONNECTION_CLOSED",
    "ERR_CONNECTION_TIMED_OUT",
    "ERR_CERT_COMMON_NAME_INVALID",
    "deadlock",
    "Navigation timeout",
    "Protocol error",
    "detached Frame"
  ]

  /** `codes.some(code => msg.includes(code))`. */
  function IncludesAnyOf(msg: string, codes: seq<string>): (b: bool)
    ensures b <==> exists k :: 0 <= k < |codes| && Includes(msg, codes[k])
  {
    if codes == [] then false
    else
      assert forall k :: 0 < k < |codes| ==> codes[k] == codes[1..][k - 1];
      Includes(msg, codes[0]) || IncludesAnyOf(msg, codes[1..])
  }

  /** The classification of a thrown failure message: permanent when it
      names the DNS failure or none of the retryable codes, retryable
      otherwise. */
  function ClassifyError(msg: string): (r: CrawlResult)
    ensures r != Indexed
    ensures Includes(msg, DnsFailureMarker) ==> r == Permanent
    ensures !Includes(msg, DnsFailureMarker) && (exists k :: 0 <= k < |RetryableCodes| && Includes(msg, RetryableCodes[k]))
      ==> r == Retryable
    ensures (forall k :: 0 <= k < |RetryableCodes| ==> !Includes(msg, RetryableCodes[k])) ==> r == Permanent
  {
    if Includes(msg, DnsFailureMarker) || !IncludesAnyOf(msg, RetryableCodes) then Permanent
    else Retryable
  }

  lemma IncludesInfix(a: string, sub: string, b: string)
    ensures Includes(a + sub + b, sub)
  {
    var s := a + sub + b;
    assert s[|a|..|a| + |sub|] == sub;
    IncludesAt(s, sub, |a|);
  }

  /** A message naming the DNS failure is permanent even when it also names
      a retryable code. */
  lemma DnsFailureWins(a: string, b: string, k: nat)
    requires k < |RetryableCodes|
    ensures Includes(a + DnsFailureMarker + b, RetryableCodes[k]) ==> ClassifyError(a + DnsFailureMarker + b) == Permanent
    ensures ClassifyError(a + DnsFailureMarker + b) == Permanent
  {
    IncludesInfix(a, DnsFailureMarker, b);
  }

  /** The message `validateUrl` throws is always classified permanent. */
  lemma ValidateUrlFailureIsPermanent(url: string)
    ensures ClassifyError(DnsFailureMarker + ": " + url) == Permanent
  {
    assert DnsFailureMarker + ": " + url == DnsFailureMarker + (": " + url);
    IncludesPrefix(DnsFailureMarker, ": " + url);
  }

  /** Any message containing one of the eight codes, and not the DNS
      marker, is retryable. */
  lemma RetryableCodeIsRetryable(a: string, k: nat, b: string)
    requires k < |RetryableCodes|
    requires !Includes(a + RetryableCodes[k] + b, DnsFailureMarker)
    ensures ClassifyError(a + RetryableCodes[k] + b) == Retryable
  {
    IncludesInfix(a, RetryableCodes[k], b);
  }

  // ---------------------------------------------------------------------
  // Page text to words

  /** `/^[a-z]{2,30}$/`. */
  predicate IsContentToken(w: string)
  {
    2 <= |w| <= 30 && forall i :: 0 <= i < |w| ==> IsLowerLetter(w[i])
  }

  /** The token filter applied to the lower-cased page text: non-word
      characters become spaces, the text is split at whitespace runs and
      only tokens of 2 to 30 lower-case letters are kept. */
  function ContentTokens(raw: string): (tokens: seq<string>)
    ensures forall k :: 0 <= k < |tokens| ==> IsContentToken(tokens[k])
    ensures forall w :: w in tokens <==> w in SplitSpaceRuns(ReplaceNonWord(raw)) && IsContentToken(w)
  {
    Filter(SplitSpaceRuns(ReplaceNonWord(raw)), IsContentToken)
  }

  /** A run of word characters that is not all lower-case letters (it has
      a digit, `_` or an upper-case letter) is dropped whole: it is not
      split into its letter parts. */
  lemma {:induction false} MixedTokenDroppedWhole(w: string)
    requires forall i :: 0 <= i < |w| ==> IsWordChar(w[i])
    requires exists i :: 0 <= i < |w| && !IsLowerLetter(w[i])
    ensures ContentTokens(w) == []
  {
    assert ReplaceNonWord(w) == w;
    SplitSpaceRunsNoSpace(w);
    assert !IsContentToken(w);
  }

  /** A token of 2 to 30 lower-case letters is kept as it is. */
  lemma {:induction false} LetterTokenKept(w: string)
    requires IsContentToken(w)
    ensures ContentTokens(w) == [w]
  {
    assert ReplaceNonWord(w) == w;
    SplitSpaceRunsNoSpace(w);
  }

  /** `loadLemmatizedWord`: the lemma listed for the lower-cased word, or
      the word itself when there is none or it is empty. */
  function Lemmatize(lemmas: map<string, string>, w: string): (l: string)
    ensures l == w || (ToLower(w) in lemmas && l == lemmas[ToLower(w)] && l != [])
    ensures ToLower(w) !in lemmas ==> l == w
    ensures ToLower(w) in lemmas && lemmas[ToLower(w)] != [] ==> l == lemmas[ToLower(w)]
  {
    var key := ToLower(w);
    if key in lemmas && lemmas[key] != [] then lemmas[key] else w
  }

  /** `processContent`: the page's words, lemmatised, in page order. */
  function PageWords(lemmas: map<string, string>, innerText: string): (words: seq<string>)
    ensures |words| == |ContentTokens(ToLower(innerText))|
    ensures forall k :: 0 <= k < |words| ==>
      words[k] == Lemmatize(lemmas, ContentTokens(ToLower(innerText))[k])
  {
    var tokens := ContentTokens(ToLower(innerText));
    seq(|tokens|, k requires 0 <= k < |tokens| => Lemmatize(lemmas, tokens[k]))
  }

  // ---------------------------------------------------------------------
  // Term statistics

  /** Per-word statistics: how often the word occurs and the 1-based
      position of its first occurrence. */
  datatype Occ = Occ(count: nat, pos: nat)

  /** The `occ` reduce: one entry per distinct word with its occurrence
      count and first position. */
  method CountOccurrences(words: seq<string>) returns (occ: map<string, Occ>)
    ensures forall w :: w in occ <==> w in words
    ensures forall w :: w in occ ==> occ[w] == Occ(multiset(words)[w], FirstIndex(words, w) + 1)
  {
    occ := map[];
    var i := 0;
    while i < |words|
      invariant 0 <= i <= |words|
      invariant forall w :: w in occ <==> w in words[..i]
      invariant forall w :: w in occ ==> occ[w] == Occ(multiset(words[..i])[w], FirstIndex(words[..i], w) + 1)
    {
      var w := words[i];
      OccurrenceStep(words, i);
      if w !in occ {
        occ := occ[w := Occ(0, i + 1)];
      }
      occ := occ[w := occ[w].(count := occ[w].count + 1)];
      i := i + 1;
    }
    assert words[..i] == words;
  }

  /** How counts and first indices change when the scanned prefix grows by
      one word. */
  lemma OccurrenceStep(words: seq<string>, i: nat)
    requires i < |words|
    ensures forall v :: v in words[..i + 1] <==> v in words[..i] || v == words[i]
    ensures multiset(words[..i + 1]) == multiset(words[..i]) + multiset{words[i]}
    ensures forall v :: v in words[..i] ==> FirstIndex(words[..i + 1], v) == FirstIndex(words[..i], v)
    ensures words[i] !in words[..i] ==> FirstIndex(words[..i + 1], words[i]) == i
  {
    var p := words[..i + 1];
    assert p == words[..i] + [words[i]];
    assert p[..i] == words[..i];
    forall v | v in words[..i]
      ensures FirstIndex(p, v) == FirstIndex(words[..i], v)
    {
      FirstIndexPrefix(p, i, v);
    }
    if words[i] !in words[..i] {
      FirstIndexUnique(p, words[i], i);
    }
  }

  /** Sum of `m[w]` over the words of `ws`. */
  function CountSum(ws: seq<string>, m: multiset<string>): nat
  {
    if ws == [] then 0 else m[ws[0]] + CountSum(ws[1..], m)
  }

  lemma {:induction false} CountSumAdd(ws: seq<string>, m: multiset<string>, x: string)
    requires NoDuplicates(ws)
    ensures CountSum(ws, m + multiset{x}) == CountSum(ws, m) + (if x in ws then 1 else 0)
  {
    if ws != [] {
      CountSumAdd(ws[1..], m, x);
      assert x in ws <==> x == ws[0] || x in ws[1..];
      if x == ws[0] {
        assert x !in ws[1..];
      }
    }
  }

  lemma {:induction false} CountSumAppend(ws: seq<string>, x: string, m: multiset<string>)
    ensures CountSum(ws + [x], m) == CountSum(ws, m) + m[x]
  {
    if ws != [] {
      assert (ws + [x])[1..] == ws[1..] + [x];
      CountSumAppend(ws[1..], x, m);
    }
  }

  /** The occurrence counts of the distinct words add up to the number of
      words, which is the website's stored `word_count`. */
  lemma {:induction false} CountsSumToWordCount(words: seq<string>)
    ensures CountSum(Distinct(words), multiset(words)) == |words|
    decreases |words|
  {
    if words != [] {
      var n := |words| - 1;
      var p := words[..n];
      var x := words[n];
      assert words == p + [x];
      assert multiset(words) == multiset(p) + multiset{x};
      CountsSumToWordCount(p);
      var d := Distinct(p);
      CountSumAdd(d, multiset(p), x);
      if x !in d {
        CountSumAppend(d, x, multiset(words));
        assert multiset(p)[x] == 0;
      }
    }
  }

  /** First positions of distinct words are distinct and lie in
      `[1, |words|]`. */
  lemma FirstPositionsDistinct(words: seq<string>, v: string, w: string)
    requires v in words && w in words
    ensures 1 <= FirstIndex(words, v) + 1 <= |words|
    ensures v != w ==> FirstIndex(words, v) != FirstIndex(words, w)
  {
  }

  lemma {:induction false} CountAtMostLength(words: seq<string>, w: string)
    ensures multiset(words)[w] <= |words|
    decreases |words|
  {
    if words != [] {
      var n := |words| - 1;
      assert words == words[..n] + [words[n]];
      CountAtMostLength(words[..n], w);
    }
  }

  // ---------------------------------------------------------------------
  // Storing a page

  /** The `documents_containing_word` counters after one increment for each
      word of `ws` (a keyword created on the way starts at 0). */
  function Bumped(kw: map<string, int>, ws: seq<string>): map<string, int>
    decreases |ws|
  {
    if ws == [] then kw
    else
      var b := Bumped(kw, ws[..|ws| - 1]);
      var w := ws[|ws| - 1];
      b[w := (if w in b then b[w] else 0) + 1]
  }

  /** Each distinct word's counter rises by exactly one, a new keyword ends
      at 1, and every other counter is unchanged. */
  lemma {:induction false} BumpedCounts(kw: map<string, int>, ws: seq<string>, w: string)
    requires NoDuplicates(ws)
    ensures w in Bumped(kw, ws) <==> w in kw || w in ws
    ensures w in ws ==> Bumped(kw, ws)[w] == (if w in kw then kw[w] else 0) + 1
    ensures w !in ws && w in kw ==> Bumped(kw, ws)[w] == kw[w]
    decreases |ws|
  {
    if ws != [] {
      var n := |ws| - 1;
      assert ws == ws[..n] + [ws[n]];
      BumpedCounts(kw, ws[..n], w);
      if w == ws[n] {
        assert w !in ws[..n];
      }
    }
  }

  /** The `website_keywords` rows written for a page: one per distinct word,
      in first-occurrence order, with its count and first position. */
  function PostingsFor(url: string, words: seq<string>): (ps: seq<Posting>)
    ensures |ps| == |Distinct(words)|
    ensures forall k :: 0 <= k < |ps| ==> ps[k].url == url && ps[k].word == Distinct(words)[k]
  {
    var d := Distinct(words);
    seq(|d|, k requires 0 <= k < |d| =>
      Posting(url, d[k], multiset(words)[d[k]], FirstIndex(words, d[k]) + 1))
  }

  /** Why `saveData` can fail inside the database: the url is already a
      website (`url` is unique) or too long for its column, or a word is
      longer than the 45 characters of `keywords.word`. */
  predicate Storable(websites: map<string, Website>, url: string, words: seq<string>)
  {
    url !in websites && |url| <= 2048 && forall k :: 0 <= k < |words| ==> |words[k]| <= 45
  }

  /** The website row `saveData` creates. */
  function NewWebsite(url: string, title: string, desc: string, words: seq<string>, rank: int): (site: Website)
    ensures site.url == url && site.wordCount == |words| && site.rank == rank
    ensures |site.title| <= 255 && |site.title| <= |title| && site.title == title[..|site.title|]
    ensures |site.title| == 255 || site.title == title
    ensures |site.description| <= 500 && |site.description| <= |desc| && site.description == desc[..|site.description|]
    ensures |site.description| == 500 || site.description == desc
  {
    Website(url, Take(title, 255), Take(desc, 500), |words|, rank)
  }

  /** `saveData` in one transaction: create the website row, count the page
      under each of its distinct words, and write one `website_keywords`
      row per distinct word. On any failure the transaction is rolled back
      and the index is unchanged. */
  method SaveData(index: SearchIndex, url: string, title: string, desc: string, words: seq<string>, rank: int)
    returns (saved: bool)
    requires index.Valid()
    modifies index
    ensures index.Valid()
    ensures saved <==> Storable(old(index.websites), url, words)
    ensures !saved ==> index.websites == old(index.websites) && index.keywords == old(index.keywords) && index.postings == old(index.postings)
    ensures saved ==> index.websites == old(index.websites)[url := NewWebsite(url, title, desc, words, rank)]
    ensures saved ==> index.keywords == Bumped(old(index.keywords), Distinct(words))
    ensures saved ==> index.postings == old(index.postings) + PostingsFor(url, words)
  {
    if url in index.websites || |url| > 2048 {
      return false;
    }
    var websites0, keywords0 := index.websites, index.keywords;
    index.websites := index.websites[url := NewWebsite(url, title, desc, words, rank)];
    var tooLong := CountDocumentUnder(index, words);
    if tooLong {
      index.websites, index.keywords := websites0, keywords0;
      return false;
    }
    WritePostings(index, url, words);
    SavedIndexValid(index, websites0, keywords0, old(index.postings), url, title, desc, words, rank);
    saved := true;
  }

  /** The `occ` reduce and the `website_keywords` bulk insert: one row per
      distinct word, in the order the words first occur. */
  method WritePostings(index: SearchIndex, url: string, words: seq<string>)
    modifies index
    ensures index.websites == old(index.websites) && index.keywords == old(index.keywords)
    ensures index.postings == old(index.postings) + PostingsFor(url, words)
  {
    var occ := CountOccurrences(words);
    var distinct := Distinct(words);
    var rows := seq(|distinct|, k requires 0 <= k < |distinct| =>
      Posting(url, distinct[k], occ[distinct[k]].count, occ[distinct[k]].pos));
    var expected := PostingsFor(url, words);
    forall k | 0 <= k < |rows|
      ensures rows[k] == expected[k]
    {
      assert distinct[k] in words;
    }
    assert rows == expected;
    index.postings := index.postings + rows;
  }

  /** The keyword loop of `saveData`: find or create each distinct word's
      keyword and raise its `documents_containing_word`; `tooLong` when a
      word does not fit the keyword column (the caller rolls back). */
  method CountDocumentUnder(index: SearchIndex, words: seq<string>) returns (tooLong: bool)
    modifies index
    ensures index.websites == old(index.websites) && index.postings == old(index.postings)
    ensures tooLong <==> exists k :: 0 <= k < |words| && |words[k]| > 45
    ensures !tooLong ==> index.keywords == Bumped(old(index.keywords), Distinct(words))
  {
    var distinct := Distinct(words);
    var i := 0;
    while i < |distinct|
      invariant 0 <= i <= |distinct|
      invariant index.websites == old(index.websites) && index.postings == old(index.postings)
      invariant index.keywords == Bumped(old(index.keywords), distinct[..i])
      invariant forall k :: 0 <= k < i ==> |distinct[k]| <= 45
    {
      var w := distinct[i];
      if |w| > 45 {
        assert words[FirstIndex(words, w)] == w;
        return true;
      }
      assert distinct[..i + 1][..i] == distinct[..i];
      index.keywords := index.keywords[w := (if w in index.keywords then index.keywords[w] else 0) + 1];
      i := i + 1;
    }
    assert distinct[..i] == distinct;
    forall k | 0 <= k < |words|
      ensures |words[k]| <= 45
    {
      assert words[k] in distinct;
    }
    tooLong := false;
  }

  /** A successful save leaves a valid index. */
  lemma SavedIndexValid(index: SearchIndex, websites0: map<string, Website>, keywords0: map<string, int>,
                        postings0: seq<Posting>, url: string, title: string, desc: string, words: seq<string>, rank: int)
    requires url !in websites0
    requires (forall u :: u in websites0 ==> websites0[u].url == u)
    requires (forall w :: w in keywords0 ==> keywords0[w] >= 1)
    requires forall k :: 0 <= k < |postings0| ==>
      var p := postings0[k];
      p.url in websites0 && p.word in keywords0 && 1 <= p.occurrences <= websites0[p.url].wordCount && p.position >= 1
    requires index.websites == websites0[url := NewWebsite(url, title, desc, words, rank)]
    requires index.keywords == Bumped(keywords0, Distinct(words))
    requires index.postings == postings0 + PostingsFor(url, words)
    ensures index.Valid()
  {
    StoredPostingsValid(index.keywords, keywords0, url, words);
    forall w | w in keywords0
      ensures w in index.keywords
    {
      BumpedCounts(keywords0, Distinct(words), w);
    }
    var ps := PostingsFor(url, words);
    forall k | 0 <= k < |index.postings|
      ensures var p := index.postings[k];
        p.url in index.websites && p.word in index.keywords &&
        1 <= p.occurrences <= index.websites[p.url].wordCount && p.position >= 1
    {
      if k >= |postings0| {
        assert index.postings[k] == ps[k - |postings0|];
      }
    }
  }

  /** The new postings refer to stored keywords and respect the bounds of
      `SearchIndex.Valid`. */
  lemma StoredPostingsValid(kw: map<string, int>, kw0: map<string, int>, url: string, words: seq<string>)
    requires kw == Bumped(kw0, Distinct(words))
    requires forall w :: w in kw0 ==> kw0[w] >= 1
    ensures forall w :: w in kw ==> kw[w] >= 1
    ensures forall k :: 0 <= k < |PostingsFor(url, words)| ==>
      var p := PostingsFor(url, words)[k];
      p.word in kw && 1 <= p.occurrences <= |words| && p.position >= 1
  {
    var d := Distinct(words);
    forall w | w in kw
      ensures kw[w] >= 1
    {
      BumpedCounts(kw0, d, w);
    }
    forall k | 0 <= k < |d|
      ensures d[k] in kw && 1 <= multiset(words)[d[k]] <= |words|
    {
      BumpedCounts(kw0, d, d[k]);
      CountAtMostLength(words, d[k]);
    }
  }

  // ---------------------------------------------------------------------
  // The `occ` accumulator as written: a plain JavaScript object

  /** Keys every plain JavaScript object inherits from `Object.prototype`.
      Page tokens are 2 to 30 lower-case letters, and the only such key is
      "constructor"; a bare "constructor" token never reaches `occ` either,
      because the lemma lookup (`lemmatizedMap.ts:15`) on the plain-object
      table returns the inherited function for it. So an inherited key
      reaches `occ` only as a lemma the table lists for another word, such as
      `"constructors": "constructor"`. */
  const InheritedKeys: set<string> := {
    "constructor", "hasOwnProperty", "isPrototypeOf", "propertyIsEnumerable",
    "toLocaleString", "toString", "valueOf", "__proto__",
    "__defineGetter__", "__defineSetter__", "__lookupGetter__", "__lookupSetter__"
  }

  /** The own entries of the `occ` object the reduce builds. For an
      inherited key `acc[w]` is already truthy, so no own entry is created
      (the increment lands on the inherited member), and `Object.entries`
      never lists it. */
  function OccAsWritten(words: seq<string>): map<string, Occ>
    decreases |words|
  {
    if words == [] then map[]
    else
      var acc := OccAsWritten(words[..|words| - 1]);
      var w := words[|words| - 1];
      if w in InheritedKeys then acc
      else if w in acc then acc[w := acc[w].(count := acc[w].count + 1)]
      else acc[w := Occ(1, |words|)]
  }

  /** A page whose text is one content token yields that token's lemma. */
  lemma SingleTokenPage(lemmas: map<string, string>, w: string)
    requires IsContentToken(w)
    ensures PageWords(lemmas, w) == [if w in lemmas && lemmas[w] != [] then lemmas[w] else w]
  {
    assert ToLower(w) == w;
    LetterTokenKept(w);
  }

  /** The page text "constructors" with the table entry
      `"constructors": "constructor"` has the one word "constructor". */
  lemma ConstructorLemmaPage()
    ensures PageWords(map["constructors" := "constructor"], "constructors") == ["constructor"]
  {
    var w := "constructors";
    assert IsContentToken(w);
    SingleTokenPage(map[w := "constructor"], w);
  }

  /** A page whose only word is "constructors", with the lemma table entry
      `"constructors": "constructor"`: the page's one word is "constructor",
      the keyword is counted for the page, yet the plain-object reduce yields
      no entry for it, so no `website_keywords` row is written and the page
      can never be found by that word. `CountOccurrences` does give it an
      entry. */
  lemma ConstructorWordLosesItsEntry()
    ensures PageWords(map["constructors" := "constructor"], "constructors") == ["constructor"]
    ensures "constructor" in Distinct(["constructor"])
    ensures OccAsWritten(["constructor"]) == map[]
  {
    ConstructorLemmaPage();
    assert ["constructor"][..0] == [];
  }

  // ---------------------------------------------------------------------
  // One crawl

  /** The answer of the robots.txt fetch in `checkRobots`. */
  datatype RobotsFetch = FetchFailed | NotOk | Body(text: string)

  /** The answer of `page.goto`. */
  datatype Navigation = NavigationThrew(message: string) | NoResponse | Responded(ok: bool)

  /** The result of a `page.evaluate` call. */
  datatype Evaluation<T> = EvaluationThrew(message: string) | Evaluated(value: T)

  /** What the browser, DNS and network produced for one crawl, and the
      message the database raises if storing fails. */
  datatype PageEnv = PageEnv(
    resolves: bool,
    robots: RobotsFetch,
    navigation: Navigation,
    meta: Evaluation<(string, string)>,
    innerText: Evaluation<string>,
    storageFailure: string)

  /** `checkRobots`: crawling is allowed unless robots.txt was fetched and
      forbids the root. */
  method CheckRobots(robots: RobotsFetch) returns (allowed: bool)
    ensures allowed <==> !(robots.Body? && Robots.RootForbidden(SplitOn(robots.text, '\n')))
  {
    match robots
    case FetchFailed => allowed := true;
    case NotOk => allowed := true;
    case Body(text) =>
      var forbidden := Robots.IsRootForbidden(text);
      allowed := !forbidden;
  }

  /** The url resolves and robots.txt does not forbid the root: the crawl
      goes on to load the page. */
  ghost predicate Admitted(env: PageEnv)
  {
    env.resolves && !(env.robots.Body? && Robots.RootForbidden(SplitOn(env.robots.text, '\n')))
  }

  /** `crawl`: validate the URL, honour robots.txt, load the page, read its
      metadata and words and store them. Early returns give `Permanent`;
      a thrown failure is classified by `ClassifyError`. The index changes
      only when the page is indexed. */
  method Crawl(index: SearchIndex, env: PageEnv, lemmas: map<string, string>, url: string, rank: int)
    returns (result: CrawlResult)
    requires index.Valid()
    modifies index
    ensures index.Valid()
    ensures result != Indexed ==> index.websites == old(index.websites) && index.keywords == old(index.keywords) && index.postings == old(index.postings)
    ensures !env.resolves ==> result == Permanent
    ensures env.resolves && env.robots.Body? && Robots.RootForbidden(SplitOn(env.robots.text, '\n')) ==> result == Permanent
    ensures Admitted(env) && env.navigation.NavigationThrew? ==> result == ClassifyError(env.navigation.message)
    ensures Admitted(env) && (env.navigation.NoResponse? || env.navigation == Responded(false)) ==> result == Permanent
    ensures Admitted(env) && env.navigation == Responded(true) && env.meta.EvaluationThrew? ==>
      result == ClassifyError(env.meta.message)
    ensures Admitted(env) && env.navigation == Responded(true) && env.meta.Evaluated? && env.innerText.EvaluationThrew? ==>
      result == ClassifyError(env.innerText.message)
    ensures Admitted(env) && env.navigation == Responded(true) && env.meta.Evaluated? && env.innerText.Evaluated? ==>
      var words := PageWords(lemmas, env.innerText.value);
      (words == [] ==> result == Permanent) &&
      (words != [] && !Storable(old(index.websites), url, words) ==> result == ClassifyError(env.storageFailure))
    ensures result == Indexed <==>
      env.resolves && !(env.robots.Body? && Robots.RootForbidden(SplitOn(env.robots.text, '\n'))) &&
      env.navigation == Responded(true) && env.meta.Evaluated? && env.innerText.Evaluated? &&
      PageWords(lemmas, env.innerText.value) != [] &&
      Storable(old(index.websites), url, PageWords(lemmas, env.innerText.value))
    ensures result == Indexed ==>
      var words := PageWords(lemmas, env.innerText.value);
      index.websites == old(index.websites)[url := NewWebsite(url, env.meta.value.0, env.meta.value.1, words, rank)] &&
      index.keywords == Bumped(old(index.keywords), Distinct(words)) &&
      index.postings == old(index.postings) + PostingsFor(url, words)
  {
    if !env.resolves {
      ValidateUrlFailureIsPermanent(url);
      return ClassifyError(DnsFailureMarker + ": " + url);
    }
    var allowed := CheckRobots(env.robots);
    if !allowed {
      return Permanent;
    }
    match env.navigation {
      case NavigationThrew(message) =>
        return ClassifyError(message);
      case NoResponse =>
        return Permanent;
      case Responded(ok) =>
        if !ok {
          return Permanent;
        }
    }
    if env.meta.EvaluationThrew? {
      return ClassifyError(env.meta.message);
    }
    var (title, description) := env.meta.value;
    if env.innerText.EvaluationThrew? {
      return ClassifyError(env.innerText.message);
    }
    var words := PageWords(lemmas, env.innerText.value);
    if |words| == 0 {
      return Permanent;
    }
    var saved := SaveData(index, url, title, description, words, rank);
    if !saved {
      return ClassifyError(env.storageFailure);
    }
    result := Indexed;
  }
}
