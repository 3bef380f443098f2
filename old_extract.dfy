/**
 * The earlier extraction driver (src/old/extract_data.py): an `if`/`elif`
 * chain over thirteen fragments, a seed with only the three context fields,
 * the adapter's return value taken as the record, unrecognised URLs stored
 * with just their seed, and no exception handling, so the first adapter
 * failure ends the whole run.
 */
module OldExtract {
  import opened Wrappers
  import opened PyStr
  import opened Records
  import opened Dates
  import opened Pharmacy
  import opened Extract

  /** The `if`/`elif` chain tests the first thirteen fragments of the later dispatcher, in the same order. */
  const OldFragments: seq<(string, Site)> := Fragments[..13]

  function OldDispatch(url: string): (r: Option<Site>)
    ensures r.None? <==> forall j :: 0 <= j < |OldFragments| ==> !Contains(url, OldFragments[j].0)
    ensures r.Some? ==> exists i :: FirstFragment(url, OldFragments, i) && OldFragments[i].1 == r.value
  {
    match FirstMatch(url, OldFragments)
    case None => None
    case Some(i) => Some(OldFragments[i].1)
  }

  /** Matching against a prefix of a table agrees with matching against the whole table, up to the prefix's end. */
  lemma FirstMatchPrefix<T>(url: string, table: seq<(string, T)>, n: nat)
    requires n <= |table|
    ensures FirstMatch(url, table[..n]).Some? ==> FirstMatch(url, table) == FirstMatch(url, table[..n])
    ensures FirstMatch(url, table[..n]).None? ==> FirstMatch(url, table).None? || FirstMatch(url, table).value >= n
  {
    var m := FirstMatch(url, table[..n]);
    if m.Some? {
      PrefixMisses(url, table, n, m.value);
      assert table[..n][m.value] == table[m.value];
      FirstMatchAt(url, table, m.value);
    } else {
      PrefixMisses(url, table, n, n);
      FirstMatchFrom(url, table, n);
    }
  }

  /** Entries of a prefix are the table's own entries. */
  lemma PrefixMisses<T>(url: string, table: seq<(string, T)>, n: nat, k: nat)
    requires k <= n <= |table|
    requires forall j :: 0 <= j < k ==> !Contains(url, table[..n][j].0)
    ensures forall j :: 0 <= j < k ==> !Contains(url, table[j].0)
  {
    forall j | 0 <= j < k
      ensures !Contains(url, table[j].0)
    {
      assert table[..n][j] == table[j];
    }
  }

  /** The first match is the matching entry with no match before it. */
  lemma FirstMatchAt<T>(url: string, table: seq<(string, T)>, k: nat)
    requires k < |table| && Contains(url, table[k].0)
    requires forall j :: 0 <= j < k ==> !Contains(url, table[j].0)
    ensures FirstMatch(url, table) == Some(k)
  {
  }

  /** With no match among the first `n` entries, the first match, if any, comes later. */
  lemma FirstMatchFrom<T>(url: string, table: seq<(string, T)>, n: nat)
    requires n <= |table|
    requires forall j :: 0 <= j < n ==> !Contains(url, table[j].0)
    ensures FirstMatch(url, table).None? || FirstMatch(url, table).value >= n
  {
  }

  /** Where the old chain picks a site, the later dispatcher picks the same one. */
  lemma OldDispatchAgrees(url: string)
    requires OldDispatch(url).Some?
    ensures Dispatch(url) == OldDispatch(url)
  {
    FirstMatchPrefix(url, Fragments, 13);
  }

  /**
   * Where the old chain picks no site, the later dispatcher picks none or
   * one of the three sites added afterwards.
   */
  lemma OldDispatchMissesAddedSites(url: string)
    requires OldDispatch(url).None? && Dispatch(url).Some?
    ensures Dispatch(url).value == FarmaciaJvf || Dispatch(url).value == Anticonceptivo || Dispatch(url).value == Farmaloop
  {
    FirstMatchPrefix(url, Fragments, 13);
    AddedFragments(FirstMatch(url, Fragments).value);
  }

  /** The entries after the first thirteen name the three sites added after the old chain. */
  lemma AddedFragments(i: nat)
    requires 13 <= i < |Fragments|
    ensures Fragments[i].1 == FarmaciaJvf || Fragments[i].1 == Anticonceptivo || Fragments[i].1 == Farmaloop
  {
    assert i == 13 || i == 14 || i == 15;
  }

  /** `data.update({'date': ..., 'name': ..., 'pharmacy': ...})` on an empty dict. */
  function OldSeed(row: InputRow, today: Day): (r: Record)
    ensures r.Get(DateKey) == Some(Str(FormatDate(today)))
    ensures r.Get(NameKey) == Some(Str(row.productName))
    ensures r.Get(PharmacyKey) == Some(Str(row.pharmacy))
    ensures forall k :: k !in {DateKey, NameKey, PharmacyKey} ==> r.Get(k).None?
  {
    Record(
      date := Some(Str(FormatDate(today))),
      name := Some(Str(row.productName)),
      pharmacy := Some(Str(row.pharmacy)))
  }

  /** One pass of the loop body: `data = adapter(url, data)`, or the seed itself when no branch matches. */
  function OldProcessRow(row: InputRow, today: Day, scrape: Scraper): (r: Result<Record, Error>)
    ensures OldDispatch(row.url).None? ==> r == Success(OldSeed(row, today))
    ensures OldDispatch(row.url).Some? ==> r == scrape(OldDispatch(row.url).value, row.url, OldSeed(row, today))
  {
    var data := OldSeed(row, today);
    match OldDispatch(row.url)
    case None => Success(data)
    case Some(site) => scrape(site, row.url, data)
  }

  /**
   * A record the old driver stores never has a URL: the adapters write only
   * scraped fields, so the three context fields of the seed are all it
   * holds besides them.
   */
  lemma OldRecordsLackUrl(row: InputRow, today: Day, scrape: Scraper)
    requires Honest(scrape)
    requires OldProcessRow(row, today, scrape).Success?
    ensures OldProcessRow(row, today, scrape).value.Get(UrlKey).None?
    ensures OldProcessRow(row, today, scrape).value.Get(NameKey) == Some(Str(row.productName))
    ensures OldProcessRow(row, today, scrape).value.Get(PharmacyKey) == Some(Str(row.pharmacy))
  {
    var seed := OldSeed(row, today);
    if OldDispatch(row.url).Some? {
      var site := OldDispatch(row.url).value;
      assert Honours(site, seed, scrape(site, row.url, seed));
      HonoursKeepsContext(site, seed, scrape(site, row.url, seed));
    }
  }

  /** An honest adapter's successful result keeps the seed's URL, name and pharmacy. */
  lemma HonoursKeepsContext(site: Site, seed: Record, r: Result<Record, Error>)
    requires Honours(site, seed, r) && r.Success?
    ensures r.value.Get(UrlKey) == seed.Get(UrlKey)
    ensures r.value.Get(NameKey) == seed.Get(NameKey)
    ensures r.value.Get(PharmacyKey) == seed.Get(PharmacyKey)
  {
    assert UrlKey !in ScrapedKeys && NameKey !in ScrapedKeys && PharmacyKey !in ScrapedKeys;
  }

  function RowOutcomeOld(today: Day, scrape: Scraper): Outcome {
    row => OldProcessRow(row, today, scrape)
  }

  /** Row `i` is the first whose adapter raises. */
  predicate FirstFailing(rows: seq<InputRow>, outcome: Outcome, i: int) {
    && 0 <= i < |rows| && !Succeeds(rows[i], outcome)
    && forall j :: 0 <= j < i ==> Succeeds(rows[j], outcome)
  }

  /** The index of the first row whose adapter raises, if any. */
  function FirstFailure(rows: seq<InputRow>, outcome: Outcome): (r: Option<nat>)
    ensures r.None? <==> forall i :: 0 <= i < |rows| ==> Succeeds(rows[i], outcome)
    ensures r.Some? ==>
      && r.value < |rows|
      && !Succeeds(rows[r.value], outcome)
      && forall j :: 0 <= j < r.value ==> Succeeds(rows[j], outcome)
    decreases |rows|
  {
    if rows == [] then None
    else if !Succeeds(rows[0], outcome) then Some(0)
    else
      match FirstFailure(rows[1..], outcome)
      case None => None
      case Some(i) => Some(i + 1)
  }

  /**
   * The old loop over `rows`: the exception of the first failing row ends
   * the run; when no row fails, every row is stored in order, as the later
   * loop stores its successful rows.
   */
  function OldCollect(rows: seq<InputRow>, outcome: Outcome): (r: Result<MedData, Error>)
    ensures r.Success? <==> forall i :: 0 <= i < |rows| ==> Succeeds(rows[i], outcome)
    ensures r.Success? ==> r.value == Collect(rows, outcome)
    ensures r.Failure? ==> exists i :: FirstFailing(rows, outcome, i) && r.error == outcome(rows[i]).error
  {
    match FirstFailure(rows, outcome)
    case Some(i) => Failure(outcome(rows[i]).error)
    case None => Success(Collect(rows, outcome))
  }

  /** A prefix without failures followed by a failing row: that row is the first failure. */
  lemma FirstFailureAt(rows: seq<InputRow>, i: nat, outcome: Outcome)
    requires i < |rows| && FirstFailure(rows[..i], outcome).None? && !Succeeds(rows[i], outcome)
    ensures FirstFailure(rows, outcome) == Some(i)
  {
    forall j | 0 <= j < i
      ensures Succeeds(rows[j], outcome)
    {
      assert rows[..i][j] == rows[j];
    }
    FirstFailureIs(rows, i, outcome);
  }

  /** The first failure is the failing row with no failure before it. */
  lemma FirstFailureIs(rows: seq<InputRow>, i: nat, outcome: Outcome)
    requires i < |rows| && !Succeeds(rows[i], outcome)
    requires forall j :: 0 <= j < i ==> Succeeds(rows[j], outcome)
    ensures FirstFailure(rows, outcome) == Some(i)
  {
  }

  /** A prefix without failures, extended by a row that succeeds, still has none. */
  lemma NoFailureExtends(rows: seq<InputRow>, i: nat, outcome: Outcome)
    requires i < |rows| && FirstFailure(rows[..i], outcome).None? && Succeeds(rows[i], outcome)
    ensures FirstFailure(rows[..i + 1], outcome).None?
  {
    assert forall j :: 0 <= j < i ==> rows[..i][j] == rows[..i + 1][j];
  }

  /** The old `extract_data`: the row loop with no `try`, so an exception leaves it at once. */
  method OldExtractData(rows: seq<InputRow>, today: Day, scrape: Scraper) returns (r: Result<MedData, Error>)
    ensures r == OldCollect(rows, RowOutcomeOld(today, scrape))
  {
    var medData: MedData := EmptyDict();
    var i := 0;
    while i < |rows|
      invariant 0 <= i <= |rows|
      invariant FirstFailure(rows[..i], RowOutcomeOld(today, scrape)).None?
      invariant medData == Collect(rows[..i], RowOutcomeOld(today, scrape))
    {
      var row := rows[i];
      var data := OldProcessRow(row, today, scrape);
      assert RowOutcomeOld(today, scrape)(row) == data;
      if data.Failure? {
        FirstFailureAt(rows, i, RowOutcomeOld(today, scrape));
        return Failure(data.error);
      }
      NoFailureExtends(rows, i, RowOutcomeOld(today, scrape));
      CollectStep(rows, i, RowOutcomeOld(today, scrape));
      ghost var before := medData;
      medData := StoreNested(medData, row.productName, row.pharmacy, data.value);
      assert medData == Step(before, row, RowOutcomeOld(today, scrape));
      i := i + 1;
    }
    assert rows[..i] == rows;
    r := Success(medData);
  }

  /** A row whose URL matches no branch is stored with just its seed. */
  lemma OldUnrecognizedStoresSeed(rows: seq<InputRow>, row: InputRow, today: Day, scrape: Scraper)
    requires OldCollect(rows, RowOutcomeOld(today, scrape)).Success?
    requires OldDispatch(row.url).None?
    ensures OldCollect(rows + [row], RowOutcomeOld(today, scrape)).Success?
    ensures Lookup(OldCollect(rows + [row], RowOutcomeOld(today, scrape)).value, row.productName, row.pharmacy)
      == Some(OldSeed(row, today))
  {
    var outcome := RowOutcomeOld(today, scrape);
    assert outcome(row) == Success(OldSeed(row, today));
    forall i | 0 <= i < |rows| + 1
      ensures Succeeds((rows + [row])[i], outcome)
    {
      if i < |rows| {
        assert (rows + [row])[i] == rows[i];
      }
    }
    StoredRow(rows, row, outcome);
  }
}
