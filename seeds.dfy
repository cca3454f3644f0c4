/** `ensureTopSites`: the seed list read from the top-sites file becomes the
    initial `top_sites` table, once. The file contents are a parameter. */
module Seeds {
  import opened Seqs
  import opened Text
  import opened Schema

  /** JavaScript truthiness of a string (`filter(Boolean)`). */
  predicate NonEmpty(u: string)
  {
    u != []
  }

  /** The seed URLs: the lines of `raw`, each once in order of first
      occurrence, without the empty line. */
  function SeedUrls(raw: string): (urls: seq<string>)
    ensures NoDuplicates(urls)
    ensures forall k :: 0 <= k < |urls| ==> urls[k] != []
    ensures forall u :: u in urls <==> u in SplitLines(raw) && u != []
  {
    FilterNoDuplicates(Distinct(SplitLines(raw)), NonEmpty);
    Filter(Distinct(SplitLines(raw)), NonEmpty)
  }

  /** Seed URLs keep the order in which the lines first occur. */
  lemma SeedOrder(raw: string, i: nat, j: nat)
    requires i < j < |SeedUrls(raw)|
    ensures FirstIndex(SplitLines(raw), SeedUrls(raw)[i]) < FirstIndex(SplitLines(raw), SeedUrls(raw)[j])
  {
    var d := Distinct(SplitLines(raw));
    var a, b := FilterOrder(d, NonEmpty, i, j);
    DistinctOrder(SplitLines(raw), a, b);
  }

  /** A character that is no line break lies on a non-empty line. */
  lemma {:induction false} NonEmptyLine(raw: string, k: nat) returns (line: nat)
    requires k < |raw| && raw[k] != '\n' && raw[k] != '\r'
    ensures line < |SplitLines(raw)| && SplitLines(raw)[line] != []
    decreases |raw|
  {
    var r := SplitLines(raw);
    if raw[0] == '\n' {
      var l := NonEmptyLine(raw[1..], k - 1);
      line := l + 1;
    } else if raw[0] == '\r' && |raw| >= 2 && raw[1] == '\n' {
      var l := NonEmptyLine(raw[2..], k - 2);
      line := l + 1;
    } else if k == 0 {
      line := 0;
    } else {
      var l := NonEmptyLine(raw[1..], k - 1);
      line := l;
    }
  }

  /** A file with any character other than a line break seeds at least one
      site, so after seeding the table is no longer empty. */
  lemma SeedingNonEmpty(raw: string, k: nat)
    requires k < |raw| && raw[k] != '\n' && raw[k] != '\r'
    ensures SeedUrls(raw) != []
  {
    var line := NonEmptyLine(raw, k);
    assert SplitLines(raw)[line] in SeedUrls(raw);
  }

  /** The rows `bulkCreate` inserts for the seed list `urls`: ranks 1..n in
      list order, every other column at its default. */
  function RankedRows(urls: seq<string>): (rows: seq<Origin>)
    ensures Urls(rows) == urls
    ensures forall i :: 0 <= i < |rows| ==> rows[i] == NewOrigin(urls[i], i + 1)
  {
    var rows := seq(|urls|, i requires 0 <= i < |urls| => NewOrigin(urls[i], i + 1));
    assert Urls(rows) == urls by {
      assert forall i :: 0 <= i < |urls| ==> Urls(rows)[i] == urls[i];
    }
    rows
  }

  /** Seeds the table from `raw` only when it has no rows: `bulkCreate`
      into an empty table with distinct URLs inserts every row. */
  method EnsureTopSites(table: TopSiteTable, raw: string)
    requires table.Valid()
    modifies table
    ensures table.Valid()
    ensures old(table.Count()) == 0 ==> table.rows == RankedRows(SeedUrls(raw))
    ensures old(table.Count()) != 0 ==> table.rows == old(table.rows)
  {
    var count := table.Count();
    if count == 0 {
      table.rows := RankedRows(SeedUrls(raw));
    }
  }

  /** Seeding twice is seeding once: the second call finds the rows of the
      first and leaves them (or finds the table still empty and seeds the
      same empty list). */
  method EnsureTopSitesTwice(table: TopSiteTable, raw: string)
    requires table.Valid() && table.rows == []
    modifies table
    ensures table.rows == RankedRows(SeedUrls(raw))
  {
    EnsureTopSites(table, raw);
    EnsureTopSites(table, raw);
  }
}
