/** The crawl frontier scheduler: which unscraped sites a round picks, in
    which order, how each crawl outcome updates its row, the retry backoff,
    and the one-way switch from the first pass to the backlog of deferred
    retries. Time is an integer number of milliseconds. */
module Scheduler {
  import opened Wrappers
  import opened Seqs
  import opened Schema
  import opened Crawler

  const BaseBackoffMs: nat := 1000
  const MaxBackoffExp: nat := 10

  function Pow2(n: nat): (p: nat)
    ensures p >= 1
  {
    if n == 0 then 1 else 2 * Pow2(n - 1)
  }

  lemma {:induction false} Pow2Monotone(m: nat, n: nat)
    requires m <= n
    ensures Pow2(m) <= Pow2(n)
    decreases n
  {
    if m < n {
      Pow2Monotone(m, n - 1);
    }
  }

  /** The delay before retry number `attempts`: the base delay times two
      to the power `min(attempts, 10)`. */
  function BackoffDelay(attempts: nat): nat
  {
    BaseBackoffMs * Pow2(if attempts < MaxBackoffExp then attempts else MaxBackoffExp)
  }

  /** A retry (`attempts >= 1`) waits between 2 seconds and 1024 seconds. */
  lemma BackoffBounds(attempts: nat)
    requires attempts >= 1
    ensures 2000 <= BackoffDelay(attempts) <= 1024000
  {
    var e := if attempts < MaxBackoffExp then attempts else MaxBackoffExp;
    Pow2Monotone(1, e);
    Pow2Monotone(e, 10);
    assert Pow2(10) == 1024;
  }

  /** The delay never shrinks as the attempt count grows. */
  lemma BackoffMonotone(a: nat, b: nat)
    requires a <= b
    ensures BackoffDelay(a) <= BackoffDelay(b)
  {
    Pow2Monotone(if a < MaxBackoffExp then a else MaxBackoffExp, if b < MaxBackoffExp then b else MaxBackoffExp);
  }

  // ---------------------------------------------------------------------
  // Selection

  /** The first-pass where-clause: unscraped, and never deferred or due. */
  predicate FirstPassEligible(o: Origin, now: int)
  {
    !o.scraped && (o.nextAttempt == None || o.nextAttempt.value <= now)
  }

  /** The backlog where-clause: unscraped, deferred at least once, and due.
      A missing next attempt time never compares as due. */
  predicate BacklogEligible(o: Origin, now: int)
  {
    !o.scraped && o.attemptCount > 0 && o.nextAttempt.Some? && o.nextAttempt.value <= now
  }

  predicate Eligible(o: Origin, firstPassComplete: bool, now: int)
  {
    if firstPassComplete then BacklogEligible(o, now) else FirstPassEligible(o, now)
  }

  /** The where-clause of a mode as a filter. */
  function WhereClause(firstPassComplete: bool, now: int): Origin -> bool
  {
    o => Eligible(o, firstPassComplete, now)
  }

  /** `next_attempt ASC` in PostgreSQL: a missing time sorts after every time. */
  predicate NullsLastLe(x: Option<int>, y: Option<int>)
  {
    match (x, y)
    case (None, None) => true
    case (None, Some(_)) => false
    case (Some(_), None) => true
    case (Some(a), Some(b)) => a <= b
  }

  /** `ORDER BY rank, attempt_count, next_attempt`. */
  predicate OrderLe(a: Origin, b: Origin)
  {
    a.rank < b.rank ||
    (a.rank == b.rank && (a.attemptCount < b.attemptCount ||
      (a.attemptCount == b.attemptCount && NullsLastLe(a.nextAttempt, b.nextAttempt))))
  }

  lemma OrderLeTotalPreorder()
    ensures TotalPreorder(OrderLe)
  {
    assert forall a, b :: OrderLe(a, b) || OrderLe(b, a);
    assert forall a, b, c :: OrderLe(a, b) && OrderLe(b, c) ==> OrderLe(a, c);
  }

  /** The rows a round fetches: the eligible rows, ordered, at most `limit`. */
  function SelectBatch(rows: seq<Origin>, firstPassComplete: bool, now: int, limit: nat): (batch: seq<Origin>)
    ensures |batch| <= limit
  {
    Take(SortBy(Filter(rows, WhereClause(firstPassComplete, now)), OrderLe), limit)
  }

  lemma OrderedSelection(eligible: seq<Origin>)
    ensures SortedBy(SortBy(eligible, OrderLe), OrderLe)
  {
    OrderLeTotalPreorder();
    SortBySorted(eligible, OrderLe);
  }

  /** Every row of the batch is a table row that the mode's where-clause
      selects, and no row is fetched twice. */
  lemma SelectBatchFromTable(rows: seq<Origin>, firstPassComplete: bool, now: int, limit: nat)
    ensures multiset(SelectBatch(rows, firstPassComplete, now, limit)) <= multiset(rows)
    ensures forall k :: 0 <= k < |SelectBatch(rows, firstPassComplete, now, limit)| ==>
      Eligible(SelectBatch(rows, firstPassComplete, now, limit)[k], firstPassComplete, now)
  {
    var eligible := Filter(rows, WhereClause(firstPassComplete, now));
    var sorted := SortBy(eligible, OrderLe);
    var batch := Take(sorted, limit);
    assert multiset(batch) <= multiset(sorted) by {
      assert sorted == batch + sorted[|batch|..];
    }
    forall k | 0 <= k < |batch|
      ensures Eligible(batch[k], firstPassComplete, now)
    {
      assert batch[k] in multiset(sorted);
      assert batch[k] in eligible;
    }
  }

  /** The batch is ordered by `(rank, attempt_count, next_attempt)`, and it
      holds the least eligible rows: an eligible row left out means the
      batch is full and every row in it comes no later than the one left
      out. */
  lemma SelectBatchIsTopK(rows: seq<Origin>, firstPassComplete: bool, now: int, limit: nat, o: Origin)
    ensures SortedBy(SelectBatch(rows, firstPassComplete, now, limit), OrderLe)
    ensures o in rows && Eligible(o, firstPassComplete, now) && o !in SelectBatch(rows, firstPassComplete, now, limit) ==>
      |SelectBatch(rows, firstPassComplete, now, limit)| == limit &&
      forall k :: 0 <= k < limit ==> OrderLe(SelectBatch(rows, firstPassComplete, now, limit)[k], o)
  {
    var eligible := Filter(rows, WhereClause(firstPassComplete, now));
    var sorted := SortBy(eligible, OrderLe);
    var batch := Take(sorted, limit);
    OrderedSelection(eligible);
    if o in rows && Eligible(o, firstPassComplete, now) && o !in batch {
      assert o in multiset(sorted);
      var j :| 0 <= j < |sorted| && sorted[j] == o;
      assert j >= |batch|;
    }
  }

  // ---------------------------------------------------------------------
  // Outcomes

  /** How a crawl task ended: `crawl` returned (its result, and the clock
      reading when it did), or it threw. */
  datatype TaskOutcome = Finished(result: CrawlResult, finishedAt: int) | Threw(message: string)

  /** The `site.update` a task performs for its outcome. A retry is
      scheduled a backoff delay after the moment the crawl finished. */
  function Settle(o: Origin, outcome: TaskOutcome): (s: Origin)
    ensures s.url == o.url && s.rank == o.rank
  {
    match outcome
    case Finished(Indexed, _) => o.(scraped := true, lastError := None)
    case Finished(Permanent, _) => o.(scraped := true, lastError := Some("permanent failure"))
    case Finished(Retryable, t) =>
      var attempts := o.attemptCount + 1;
      o.(attemptCount := attempts, nextAttempt := Some(t + BackoffDelay(attempts)),
         lastError := Some("retryable error, deferred"))
    case Threw(message) => o.(scraped := true, lastError := Some("unexpected error: " + message))
  }

  /** What each outcome does to a row, and what it leaves alone. */
  lemma SettleEffects(o: Origin, outcome: TaskOutcome)
    ensures o.scraped ==> Settle(o, outcome).scraped
    ensures Settle(o, outcome).attemptCount >= o.attemptCount
    ensures outcome.Finished? && outcome.result == Indexed ==>
      Settle(o, outcome) == o.(scraped := true, lastError := None)
    ensures outcome.Finished? && outcome.result == Permanent ==>
      Settle(o, outcome) == o.(scraped := true, lastError := Some("permanent failure"))
    ensures outcome.Threw? ==>
      Settle(o, outcome) == o.(scraped := true, lastError := Some("unexpected error: " + outcome.message))
    ensures outcome.Finished? && outcome.result == Retryable ==>
      var s := Settle(o, outcome);
      s == o.(attemptCount := o.attemptCount + 1,
              nextAttempt := Some(outcome.finishedAt + BackoffDelay(o.attemptCount + 1)),
              lastError := Some("retryable error, deferred")) &&
      outcome.finishedAt + 2000 <= s.nextAttempt.value <= outcome.finishedAt + 1024000
  {
    if outcome.Finished? && outcome.result == Retryable {
      BackoffBounds(o.attemptCount + 1);
    }
  }

  /** A deferred site is not picked again, in either mode, before its
      backoff has passed. */
  lemma DeferredSiteWaits(o: Origin, t: int, firstPassComplete: bool, now: int)
    requires now < t + 2000
    ensures !Eligible(Settle(o, Finished(Retryable, t)), firstPassComplete, now)
  {
    SettleEffects(o, Finished(Retryable, t));
  }

  /** One row per site, updated when its url is in `urls`. */
  function SettleAll(rows: seq<Origin>, urls: seq<string>, outcomeOf: string -> TaskOutcome): (rs: seq<Origin>)
    ensures |rs| == |rows|
    ensures forall i :: 0 <= i < |rows| ==>
      rs[i] == if rows[i].url in urls then Settle(rows[i], outcomeOf(rows[i].url)) else rows[i]
  {
    seq(|rows|, i requires 0 <= i < |rows| =>
      if rows[i].url in urls then Settle(rows[i], outcomeOf(rows[i].url)) else rows[i])
  }

  // ---------------------------------------------------------------------
  // The first-pass switch

  /** The switch as the loop writes it: every fetched site has been
      attempted before, which an empty batch satisfies vacuously. */
  predicate SwitchAsWritten(batch: seq<Origin>)
  {
    forall k :: 0 <= k < |batch| ==> batch[k].attemptCount > 0
  }

  /** The switch as intended: no unscraped site is left that has never been
      attempted. */
  predicate FirstPassDone(rows: seq<Origin>)
  {
    forall i :: 0 <= i < |rows| ==> (!rows[i].scraped ==> rows[i].attemptCount > 0)
  }

  /** A site never attempted is never picked in backlog mode, whatever the
      time. */
  lemma UnattemptedNeverInBacklog(o: Origin, now: int)
    requires o.attemptCount == 0
    ensures !Eligible(o, true, now)
  {
  }

  lemma FilterPair(a: Origin, b: Origin, now: int)
    requires Eligible(a, false, now) && Eligible(b, false, now)
    ensures Filter([a, b], WhereClause(false, now)) == [a, b]
  {
    var w := WhereClause(false, now);
    assert w(a) && w(b);
    assert [a, b][..1] == [a] && [a][..0] == [];
    assert Filter([a], w) == [a];
    assert Filter([a, b], w) == Filter([a], w) + [b];
  }

  lemma SortPair(a: Origin, b: Origin)
    requires OrderLe(a, b)
    ensures SortBy([a, b], OrderLe) == [a, b]
  {
    assert [a, b][1..] == [b] && [b][1..] == [];
    assert SortBy([b], OrderLe) == [b];
  }

  /** Two sites, one slot per round: the first, already deferred once and
      now due, fills the first-pass batch, so the written switch fires while
      the second, never attempted, is still waiting; from then on no round
      can select it. */
  lemma PrematureSwitchStarvesSite(a: Origin, b: Origin, now: int)
    requires !a.scraped && a.attemptCount == 1 && a.nextAttempt == Some(now)
    requires !b.scraped && b.attemptCount == 0 && b.nextAttempt == None
    requires a.rank < b.rank
    ensures SelectBatch([a, b], false, now, 1) == [a]
    ensures SwitchAsWritten(SelectBatch([a, b], false, now, 1))
    ensures !FirstPassDone([a, b])
    ensures forall later :: !Eligible(b, true, later)
  {
    FilterPair(a, b, now);
    SortPair(a, b);
    assert !FirstPassDone([a, b]) by {
      assert [a, b][1] == b;
    }
  }

  /** The intended switch is never earlier than the written one: when no
      never-attempted site is left, every site a first-pass batch can hold
      has been attempted. */
  lemma FirstPassDoneImpliesSwitch(rows: seq<Origin>, now: int, limit: nat)
    requires FirstPassDone(rows)
    ensures SwitchAsWritten(SelectBatch(rows, false, now, limit))
  {
    var batch := SelectBatch(rows, false, now, limit);
    SelectBatchFromTable(rows, false, now, limit);
    forall k | 0 <= k < |batch|
      ensures batch[k].attemptCount > 0
    {
      assert batch[k] in multiset(rows);
      var i :| 0 <= i < |rows| && rows[i] == batch[k];
    }
  }

  /** In a valid table a never-attempted site has no next attempt time, so
      an empty first-pass batch means the first pass is done. */
  lemma EmptyFirstPassBatchIsDone(rows: seq<Origin>, now: int, limit: nat)
    requires forall i :: 0 <= i < |rows| ==> (rows[i].attemptCount > 0 <==> rows[i].nextAttempt.Some?)
    requires limit > 0 && SelectBatch(rows, false, now, limit) == []
    ensures FirstPassDone(rows)
  {
    forall i | 0 <= i < |rows| && !rows[i].scraped
      ensures rows[i].attemptCount > 0
    {
      if rows[i].attemptCount == 0 {
        SelectBatchIsTopK(rows, false, now, limit, rows[i]);
      }
    }
  }

  // ---------------------------------------------------------------------
  // The loop

  lemma {:induction false} NoDuplicatesCount<T>(s: seq<T>, x: T)
    requires NoDuplicates(s)
    ensures multiset(s)[x] <= 1
    decreases |s|
  {
    if s != [] {
      var n := |s| - 1;
      assert s == s[..n] + [s[n]];
      NoDuplicatesCount(s[..n], x);
      if x == s[n] {
        assert x !in s[..n];
      }
    }
  }

  /** A batch taken from a table with unique urls has unique urls, and
      each of its rows is the table row with that url. */
  lemma {:induction false} BatchUrlsUnique(rows: seq<Origin>, batch: seq<Origin>)
    requires NoDuplicates(Urls(rows)) && multiset(batch) <= multiset(rows)
    ensures NoDuplicates(Urls(batch))
    ensures forall k :: 0 <= k < |batch| ==>
      batch[k].url in Urls(rows) && rows[FirstIndex(Urls(rows), batch[k].url)] == batch[k]
  {
    forall k | 0 <= k < |batch|
      ensures batch[k].url in Urls(rows) && rows[FirstIndex(Urls(rows), batch[k].url)] == batch[k]
    {
      assert batch[k] in multiset(rows);
      var i :| 0 <= i < |rows| && rows[i] == batch[k];
      assert Urls(rows)[i] == batch[k].url;
      var j := FirstIndex(Urls(rows), batch[k].url);
      assert i == j;
    }
    assert NoDuplicates(rows) by {
      forall i, j | 0 <= i < j < |rows|
        ensures rows[i] != rows[j]
      {
        assert Urls(rows)[i] != Urls(rows)[j];
      }
    }
    forall i, j | 0 <= i < j < |batch|
      ensures Urls(batch)[i] != Urls(batch)[j]
    {
      if batch[i].url == batch[j].url {
        var x := batch[i];
        assert rows[FirstIndex(Urls(rows), x.url)] == batch[j];
        assert batch == batch[..j] + [batch[j]] + batch[j + 1..];
        assert x in batch[..j];
        assert multiset(batch)[x] >= 2;
        NoDuplicatesCount(rows, x);
      }
    }
  }

  /** The crawl loop with its mode flag, one round per `Step`. The crawls of
      a round are given by `outcomeOf`, one outcome per url. */
  class Frontier {
    var firstPassComplete: bool
    const table: TopSiteTable
    const concurrency: nat

    /** Once the first pass is done, no never-attempted site remains. */
    ghost predicate Valid()
      reads this, table
    {
      table.Valid() && (firstPassComplete ==> FirstPassDone(table.rows))
    }

    constructor (table: TopSiteTable, concurrency: nat)
      requires table.Valid()
      ensures this.table == table && this.concurrency == concurrency
      ensures !firstPassComplete && Valid()
    {
      this.table := table;
      this.concurrency := concurrency;
      firstPassComplete := false;
    }

    /** One round as the loop runs it: fetch the batch for the current
        mode, switch to the backlog when every fetched site has been
        attempted before (an empty batch included), and apply every outcome
        to its site's row. */
    method Step(now: int, outcomeOf: string -> TaskOutcome) returns (batch: seq<Origin>)
      requires table.Valid()
      modifies this, table
      ensures table.Valid()
      ensures batch == SelectBatch(old(table.rows), old(firstPassComplete), now, concurrency)
      ensures firstPassComplete == (old(firstPassComplete) || SwitchAsWritten(batch))
      ensures table.rows == SettleAll(old(table.rows), Urls(batch), outcomeOf)
    {
      var rows0 := table.rows;
      batch := SelectBatch(table.rows, firstPassComplete, now, concurrency);
      if !firstPassComplete && SwitchAsWritten(batch) {
        firstPassComplete := true;
      }
      SelectBatchFromTable(rows0, old(firstPassComplete), now, concurrency);
      BatchUrlsUnique(rows0, batch);
      ApplyOutcomes(batch, outcomeOf);
      SettledTableValid(rows0, Urls(batch), outcomeOf, false);
    }

    /** One round with the switch as intended: it happens only once no
        never-attempted site is left, so the first pass is never cut short. */
    method StepCorrected(now: int, outcomeOf: string -> TaskOutcome) returns (batch: seq<Origin>)
      requires Valid()
      modifies this, table
      ensures Valid()
      ensures batch == SelectBatch(old(table.rows), old(firstPassComplete), now, concurrency)
      ensures firstPassComplete == (old(firstPassComplete) || FirstPassDone(old(table.rows)))
      ensures table.rows == SettleAll(old(table.rows), Urls(batch), outcomeOf)
    {
      var rows0 := table.rows;
      batch := SelectBatch(table.rows, firstPassComplete, now, concurrency);
      if !firstPassComplete && FirstPassDone(table.rows) {
        firstPassComplete := true;
      }
      SelectBatchFromTable(rows0, old(firstPassComplete), now, concurrency);
      BatchUrlsUnique(rows0, batch);
      ApplyOutcomes(batch, outcomeOf);
      SettledTableValid(rows0, Urls(batch), outcomeOf, old(firstPassComplete) || FirstPassDone(rows0));
    }

    /** The tasks of a round, one after the other: each updates the row of
        its site from the row it was fetched as. */
    method ApplyOutcomes(batch: seq<Origin>, outcomeOf: string -> TaskOutcome)
      requires NoDuplicates(Urls(table.rows)) && NoDuplicates(Urls(batch))
      requires forall k :: 0 <= k < |batch| ==>
        batch[k].url in Urls(table.rows) && table.rows[FirstIndex(Urls(table.rows), batch[k].url)] == batch[k]
      modifies table
      ensures table.rows == SettleAll(old(table.rows), Urls(batch), outcomeOf)
    {
      var rows0 := table.rows;
      var k := 0;
      while k < |batch|
        invariant 0 <= k <= |batch|
        invariant table.rows == SettleAll(rows0, Urls(batch[..k]), outcomeOf)
      {
        var site := batch[k];
        var i := FirstIndex(Urls(rows0), site.url);
        assert Urls(batch[..k + 1]) == Urls(batch[..k]) + [site.url];
        assert site.url !in Urls(batch[..k]) by {
          assert forall j :: 0 <= j < k ==> Urls(batch[..k])[j] == Urls(batch)[j];
        }
        SettleAllStep(rows0, Urls(batch[..k]), i, outcomeOf);
        table.Update(i, Settle(site, outcomeOf(site.url)));
        k := k + 1;
      }
      assert batch[..k] == batch;
    }
  }

  /** Settling one more url changes exactly the row with that url. */
  lemma SettleAllStep(rows: seq<Origin>, urls: seq<string>, i: nat, outcomeOf: string -> TaskOutcome)
    requires NoDuplicates(Urls(rows)) && i < |rows| && rows[i].url !in urls
    ensures SettleAll(rows, urls + [rows[i].url], outcomeOf) ==
      SettleAll(rows, urls, outcomeOf)[i := Settle(rows[i], outcomeOf(rows[i].url))]
  {
    var u := rows[i].url;
    forall j | 0 <= j < |rows| && j != i
      ensures rows[j].url in urls + [u] <==> rows[j].url in urls
    {
      assert Urls(rows)[j] != Urls(rows)[i];
    }
  }

  /** Settling rows keeps the table valid and the first-pass fact true. */
  lemma SettledTableValid(rows: seq<Origin>, urls: seq<string>, outcomeOf: string -> TaskOutcome, done: bool)
    requires NoDuplicates(Urls(rows))
    requires forall i :: 0 <= i < |rows| ==> (rows[i].attemptCount > 0 <==> rows[i].nextAttempt.Some?)
    requires done ==> FirstPassDone(rows)
    ensures var rs := SettleAll(rows, urls, outcomeOf);
      NoDuplicates(Urls(rs)) &&
      (forall i :: 0 <= i < |rs| ==> (rs[i].attemptCount > 0 <==> rs[i].nextAttempt.Some?)) &&
      (done ==> FirstPassDone(rs))
  {
    var rs := SettleAll(rows, urls, outcomeOf);
    assert Urls(rs) == Urls(rows);
    forall i | 0 <= i < |rows|
      ensures (rs[i].attemptCount > 0 <==> rs[i].nextAttempt.Some?)
      ensures done && !rs[i].scraped ==> rs[i].attemptCount > 0
    {
      SettleEffects(rows[i], outcomeOf(rows[i].url));
    }
  }
}
