/**
 * The extraction driver (`extract_data` in src/extraction/extract_data.py):
 * for each input row it seeds a fresh record, routes the URL to the adapter
 * of the first site whose fragment it contains, and stores the scraped
 * record in the two-level `med_data` dict under product and pharmacy.  An
 * unrecognised URL or a failing adapter is logged and the row is skipped.
 *
 * The loop is stated for any adapter table (`Scraper`).  The one the source
 * calls is `Adapters(fetch)`: the adapters of module `Pharmacy`, run on
 * `fetch(url)`, which stands for what each site's page would show for that
 * URL; `AdaptersHonest` proves it keeps the adapters' promise.
 */
module Extract {
  import opened Wrappers
  import opened PyStr
  import opened Records
  import opened Dates
  import opened Pharmacy

  /** One line of the input CSV. */
  datatype InputRow = InputRow(url: string, productName: string, pharmacy: string)

  /**
   * What each site's page would show for a URL.  Only the part for the site
   * the URL is dispatched to is ever looked at.
   */
  datatype Web = Web(
    buhochile: Response<BuhochilePage>,
    ahumada: Response<AhumadaPage>,
    farmex: Response<FarmexPage>,
    elQuimico: Response<ElQuimicoPage>,
    salcobrand: Response<SalcobrandPage>,
    novaSalud: Response<NovaSaludPage>,
    drSimi: Response<DrSimiPage>,
    ecoFarmacias: Response<EcoPage>,
    mercadoFarma: Response<MercadoFarmaPage>,
    meki: Response<MekiPage>,
    cruzVerde: Response<Option<CruzVerdePage>>,
    profar: Response<ProfarPage>,
    knop: Response<KnopPage>,
    farmaciaJvf: JvfPage,
    anticonceptivo: AnticonceptivoPage,
    farmaloop: FarmaloopPage)

  // ---------------------------------------------------------------------
  // Dispatch
  // ---------------------------------------------------------------------

  /** The URL fragments of the `match` statement, in the order its cases are tried. */
  const Fragments: seq<(string, Site)> := [
    ("buhochile.com", Buhochile),
    ("farmaciasahumada.cl", Ahumada),
    ("farmex.cl", Farmex),
    ("farmaciaelquimico.cl", ElQuimico),
    ("salcobrand.cl", Salcobrand),
    ("novasalud.cl", NovaSalud),
    ("drsimi.cl", DrSimi),
    ("ecofarmacias.cl", EcoFarmacias),
    ("mercadofarma.cl", MercadoFarma),
    ("farmaciameki.cl", Meki),
    ("cruzverde.cl", CruzVerde),
    ("profar.cl", Profar),
    ("farmaciasknop.com", Knop),
    ("farmaciajvf", FarmaciaJvf),
    ("anticonceptivo.cl", Anticonceptivo),
    ("farmaloop.cl", Farmaloop)]

  /** Entry `i` is the first of the table whose fragment occurs in the URL. */
  predicate FirstFragment<T>(url: string, table: seq<(string, T)>, i: int) {
    && 0 <= i < |table| && Contains(url, table[i].0)
    && forall j :: 0 <= j < i ==> !Contains(url, table[j].0)
  }

  /** The index of the first entry of `table` whose fragment occurs in `url`. */
  function FirstMatch<T>(url: string, table: seq<(string, T)>): (r: Option<nat>)
    ensures r.None? <==> forall j :: 0 <= j < |table| ==> !Contains(url, table[j].0)
    ensures r.Some? ==>
      && r.value < |table|
      && Contains(url, table[r.value].0)
      && forall j :: 0 <= j < r.value ==> !Contains(url, table[j].0)
    decreases |table|
  {
    if table == [] then None
    else if Contains(url, table[0].0) then Some(0)
    else
      match FirstMatch(url, table[1..])
      case None => None
      case Some(i) => Some(i + 1)
  }

  /** The site whose case of the `match` statement fires for `url`, if any. */
  function Dispatch(url: string): (r: Option<Site>)
    ensures r.None? <==> forall j :: 0 <= j < |Fragments| ==> !Contains(url, Fragments[j].0)
    ensures r.Some? ==> exists i :: FirstFragment(url, Fragments, i) && Fragments[i].1 == r.value
  {
    match FirstMatch(url, Fragments)
    case None => None
    case Some(i) => Some(Fragments[i].1)
  }

  /** Each site's own fragment. */
  function SiteFragment(site: Site): (f: string)
    ensures exists i :: 0 <= i < |Fragments| && Fragments[i] == (f, site)
  {
    match site
    case Buhochile => assert Fragments[0] == ("buhochile.com", Buhochile); "buhochile.com"
    case Ahumada => assert Fragments[1] == ("farmaciasahumada.cl", Ahumada); "farmaciasahumada.cl"
    case Farmex => assert Fragments[2] == ("farmex.cl", Farmex); "farmex.cl"
    case ElQuimico => assert Fragments[3] == ("farmaciaelquimico.cl", ElQuimico); "farmaciaelquimico.cl"
    case Salcobrand => assert Fragments[4] == ("salcobrand.cl", Salcobrand); "salcobrand.cl"
    case NovaSalud => assert Fragments[5] == ("novasalud.cl", NovaSalud); "novasalud.cl"
    case DrSimi => assert Fragments[6] == ("drsimi.cl", DrSimi); "drsimi.cl"
    case EcoFarmacias => assert Fragments[7] == ("ecofarmacias.cl", EcoFarmacias); "ecofarmacias.cl"
    case MercadoFarma => assert Fragments[8] == ("mercadofarma.cl", MercadoFarma); "mercadofarma.cl"
    case Meki => assert Fragments[9] == ("farmaciameki.cl", Meki); "farmaciameki.cl"
    case CruzVerde => assert Fragments[10] == ("cruzverde.cl", CruzVerde); "cruzverde.cl"
    case Profar => assert Fragments[11] == ("profar.cl", Profar); "profar.cl"
    case Knop => assert Fragments[12] == ("farmaciasknop.com", Knop); "farmaciasknop.com"
    case FarmaciaJvf => assert Fragments[13] == ("farmaciajvf", FarmaciaJvf); "farmaciajvf"
    case Anticonceptivo => assert Fragments[14] == ("anticonceptivo.cl", Anticonceptivo); "anticonceptivo.cl"
    case Farmaloop => assert Fragments[15] == ("farmaloop.cl", Farmaloop); "farmaloop.cl"
  }

  /**
   * The dispatcher picks a site exactly when the URL contains one of the
   * sixteen fragments, and then it picks the first in table order, whose
   * fragment the URL contains.
   */
  lemma DispatchFirstMatch(url: string)
    ensures Dispatch(url).None? <==> forall j :: 0 <= j < |Fragments| ==> !Contains(url, Fragments[j].0)
    ensures Dispatch(url).Some? ==>
      exists i :: 0 <= i < |Fragments| && Fragments[i].1 == Dispatch(url).value
        && Contains(url, Fragments[i].0)
        && forall j :: 0 <= j < i ==> !Contains(url, Fragments[j].0)
  {
    match FirstMatch(url, Fragments)
    case None =>
    case Some(i) =>
      assert Fragments[i].1 == Dispatch(url).value;
  }

  /** A URL that contains its site's fragment and none of the earlier ones goes to that site. */
  lemma {:induction false} DispatchToSite(url: string, i: nat)
    requires i < |Fragments| && Contains(url, Fragments[i].0)
    requires forall j :: 0 <= j < i ==> !Contains(url, Fragments[j].0)
    ensures Dispatch(url) == Some(Fragments[i].1)
  {
    var m := FirstMatch(url, Fragments);
    assert m.Some?;
  }

  // ---------------------------------------------------------------------
  // One row
  // ---------------------------------------------------------------------

  /**
   * The record each row starts from: date, name, pharmacy and URL from the
   * row and the clock, every scraped field `None`.
   */
  function Seed(row: InputRow, today: Day): (r: Record)
    ensures forall k :: r.Get(k).Some?
    ensures forall k :: k in ScrapedKeys ==> r.Get(k) == Some(Null)
    ensures r.Get(DateKey) == Some(Str(FormatDate(today)))
    ensures r.Get(NameKey) == Some(Str(row.productName))
    ensures r.Get(PharmacyKey) == Some(Str(row.pharmacy))
    ensures r.Get(UrlKey) == Some(Str(row.url))
  {
    Record(
      date := Some(Str(FormatDate(today))),
      name := Some(Str(row.productName)),
      pharmacy := Some(Str(row.pharmacy)),
      price := Some(Null),
      labName := Some(Null),
      bioequivalent := Some(Null),
      isAvailable := Some(Null),
      activePrinciple := Some(Null),
      sku := Some(Null),
      webName := Some(Null),
      url := Some(Str(row.url)))
  }

  /** The date a seed carries reads back as the day it was stamped, when pandas can hold it. */
  lemma SeedDateReadsBack(row: InputRow, today: Day)
    requires InTimestampRange(today)
    ensures Seed(row, today).Get(DateKey).value.Str?
    ensures ParseDate(Seed(row, today).Get(DateKey).value.s) == Some(today)
  {
    ParseFormatRoundTrip(today);
  }

  /** The adapter the dispatcher calls, run on what the site shows for the URL. */
  function Scrape(site: Site, url: string, data: Record, fetch: string -> Web): (r: Result<Record, Error>)
    ensures Honours(site, data, r)
  {
    var web := fetch(url);
    match site
    case Buhochile => BuhochileAdapter(web.buhochile, data)
    case Ahumada => AhumadaAdapter(web.ahumada, data)
    case Farmex => FarmexAdapter(web.farmex, data)
    case ElQuimico => ElQuimicoAdapter(web.elQuimico, data)
    case Salcobrand => SalcobrandAdapter(web.salcobrand, data)
    case NovaSalud => NovaSaludAdapter(web.novaSalud, data)
    case DrSimi => DrSimiAdapter(web.drSimi, data)
    case EcoFarmacias => EcoFarmaciasAdapter(web.ecoFarmacias, data)
    case MercadoFarma => MercadoFarmaAdapter(web.mercadoFarma, data)
    case Meki => MekiAdapter(web.meki, data)
    case CruzVerde => CruzVerdeAdapter(web.cruzVerde, data)
    case Profar => ProfarAdapter(web.profar, data)
    case Knop => KnopAdapter(web.knop, data)
    case FarmaciaJvf => FarmaciaJvfAdapter(web.farmaciaJvf, data)
    case Anticonceptivo => AnticonceptivoAdapter(web.anticonceptivo, data)
    case Farmaloop => FarmaloopAdapter(web.farmaloop, data)
  }

  /** `p.<site>(url, data)` for the site the dispatcher chose. */
  type Scraper = (Site, string, Record) -> Result<Record, Error>

  /** The adapters of module `Pharmacy`, each run on what its site shows for the URL. */
  function Adapters(fetch: string -> Web): Scraper {
    (site, url, data) => Scrape(site, url, data, fetch)
  }

  /** A scraper that, like every adapter, writes only scraped fields and sets its site's required ones. */
  ghost predicate Honest(scrape: Scraper) {
    forall site, url, data :: Honours(site, data, scrape(site, url, data))
  }

  lemma AdaptersHonest(fetch: string -> Web)
    ensures Honest(Adapters(fetch))
  {
    forall site, url, data
      ensures Honours(site, data, Adapters(fetch)(site, url, data))
    {
      assert Adapters(fetch)(site, url, data) == Scrape(site, url, data, fetch);
    }
  }

  /**
   * The body of the `try`: seed, dispatch, `data.update(adapter(url, data))`.
   * A failure is the exception the `except` clause logs.
   */
  function ProcessRow(row: InputRow, today: Day, scrape: Scraper): (r: Result<Record, Error>)
    ensures Dispatch(row.url).None? ==> r == Failure(UnrecognizedUrl(row.url))
    ensures r.Success? ==>
      && Dispatch(row.url).Some?
      && scrape(Dispatch(row.url).value, row.url, Seed(row, today)).Success?
      && r.value == Seed(row, today).Update(scrape(Dispatch(row.url).value, row.url, Seed(row, today)).value)
  {
    var data := Seed(row, today);
    match Dispatch(row.url)
    case None => Failure(UnrecognizedUrl(row.url))
    case Some(site) =>
      var scraped :- scrape(site, row.url, data);
      Success(data.Update(scraped))
  }

  /**
   * With honest adapters, a processed row keeps every key of its seed,
   * keeps the seed's context fields, and has the dispatched site's required
   * fields set.
   */
  lemma ProcessedRecord(row: InputRow, today: Day, scrape: Scraper)
    requires Honest(scrape)
    requires ProcessRow(row, today, scrape).Success?
    ensures forall k :: ProcessRow(row, today, scrape).value.Get(k).Some?
    ensures forall k :: k !in ScrapedKeys ==> ProcessRow(row, today, scrape).value.Get(k) == Seed(row, today).Get(k)
    ensures RequiredKeys(Dispatch(row.url).value).Some? ==>
      forall k :: k in RequiredKeys(Dispatch(row.url).value).value ==> Present(ProcessRow(row, today, scrape).value, k)
  {
    var data := Seed(row, today);
    var scraped := scrape(Dispatch(row.url).value, row.url, data);
    assert Honours(Dispatch(row.url).value, data, scraped);
  }

  // ---------------------------------------------------------------------
  // The whole input
  // ---------------------------------------------------------------------

  /** What processing one row comes to: the record to store, or the exception that skips it. */
  type Outcome = InputRow -> Result<Record, Error>

  /** The row gets through without an exception. */
  predicate Succeeds(row: InputRow, outcome: Outcome) {
    outcome(row).Success?
  }

  /** The outcome of every row in a run on day `today`. */
  function RowOutcome(today: Day, scrape: Scraper): Outcome {
    row => ProcessRow(row, today, scrape)
  }

  /** One turn of the loop: a successful row is stored, a failed one leaves `med_data` as it was. */
  function Step(med: MedData, row: InputRow, outcome: Outcome): MedData {
    match outcome(row)
    case Success(rec) => Store(med, row.productName, row.pharmacy, rec)
    case Failure(_) => med
  }

  /** `med_data` after the loop has processed `rows` in order. */
  function Collect(rows: seq<InputRow>, outcome: Outcome): (r: MedData)
    ensures ValidMedData(r)
    decreases |rows|
  {
    if rows == [] then EmptyDict()
    else Step(Collect(rows[..|rows| - 1], outcome), rows[|rows| - 1], outcome)
  }

  /** `extract_data`: the row loop, updating the nested dict in place. */
  method ExtractData(rows: seq<InputRow>, today: Day, scrape: Scraper) returns (medData: MedData)
    ensures medData == Collect(rows, RowOutcome(today, scrape))
  {
    ghost var outcome := RowOutcome(today, scrape);
    medData := EmptyDict();
    var i := 0;
    while i < |rows|
      invariant 0 <= i <= |rows|
      invariant medData == Collect(rows[..i], outcome)
    {
      var row := rows[i];
      var result := ProcessRow(row, today, scrape);
      assert outcome(row) == result;
      CollectStep(rows, i, outcome);
      ghost var before := medData;
      if result.Success? {
        medData := StoreNested(medData, row.productName, row.pharmacy, result.value);
      }
      assert medData == Step(before, row, outcome);
      i := i + 1;
    }
    assert rows[..i] == rows;
  }

  /** One more row extends the loop's dict by one step. */
  lemma CollectStep(rows: seq<InputRow>, i: nat, outcome: Outcome)
    requires i < |rows|
    ensures Collect(rows[..i + 1], outcome) == Step(Collect(rows[..i], outcome), rows[i], outcome)
  {
    assert rows[..i + 1][..i] == rows[..i];
  }

  /** Row `row` stores a record under (`product`, `pharmacy`). */
  predicate StoredBy(row: InputRow, outcome: Outcome, product: string, pharmacy: string) {
    row.productName == product && row.pharmacy == pharmacy && Succeeds(row, outcome)
  }

  /**
   * A reference reading of the loop for one (product, pharmacy) pair: the
   * record of the last row that succeeded for that pair.
   */
  function LastStored(rows: seq<InputRow>, outcome: Outcome, product: string, pharmacy: string): Option<Record>
    decreases |rows|
  {
    if rows == [] then None
    else
      var last := rows[|rows| - 1];
      if StoredBy(last, outcome, product, pharmacy) then Some(outcome(last).value)
      else LastStored(rows[..|rows| - 1], outcome, product, pharmacy)
  }

  /** The loop's dict holds, for every pair, exactly what the reference reading says. */
  lemma {:induction false} CollectLookup(rows: seq<InputRow>, outcome: Outcome, product: string, pharmacy: string)
    ensures Lookup(Collect(rows, outcome), product, pharmacy) == LastStored(rows, outcome, product, pharmacy)
    decreases |rows|
  {
    if rows != [] {
      CollectLookup(rows[..|rows| - 1], outcome, product, pharmacy);
    }
  }

  /** A pair has an entry exactly when some row for it succeeded. */
  lemma {:induction false} LastStoredSomeIff(rows: seq<InputRow>, outcome: Outcome, product: string, pharmacy: string)
    ensures LastStored(rows, outcome, product, pharmacy).Some? <==>
      exists i :: 0 <= i < |rows| && StoredBy(rows[i], outcome, product, pharmacy)
    decreases |rows|
  {
    if rows != [] {
      var init := rows[..|rows| - 1];
      LastStoredSomeIff(init, outcome, product, pharmacy);
      if exists i :: 0 <= i < |rows| && StoredBy(rows[i], outcome, product, pharmacy) {
        var i :| 0 <= i < |rows| && StoredBy(rows[i], outcome, product, pharmacy);
        if i < |rows| - 1 {
          assert init[i] == rows[i];
        }
      }
      if exists i :: 0 <= i < |init| && StoredBy(init[i], outcome, product, pharmacy) {
        var i :| 0 <= i < |init| && StoredBy(init[i], outcome, product, pharmacy);
        assert rows[i] == init[i];
      }
    }
  }

  /** The entry of a pair is the record of the last row that succeeded for it: later rows overwrite. */
  lemma {:induction false} LastStoredIsLastWrite(rows: seq<InputRow>, outcome: Outcome, product: string, pharmacy: string)
    requires LastStored(rows, outcome, product, pharmacy).Some?
    ensures exists i ::
      && 0 <= i < |rows|
      && StoredBy(rows[i], outcome, product, pharmacy)
      && LastStored(rows, outcome, product, pharmacy).value == outcome(rows[i]).value
      && (forall j :: i < j < |rows| ==> !StoredBy(rows[j], outcome, product, pharmacy))
    decreases |rows|
  {
    var n := |rows| - 1;
    if !StoredBy(rows[n], outcome, product, pharmacy) {
      var init := rows[..n];
      LastStoredIsLastWrite(init, outcome, product, pharmacy);
      var i :| 0 <= i < |init|
        && StoredBy(init[i], outcome, product, pharmacy)
        && LastStored(init, outcome, product, pharmacy).value == outcome(init[i]).value
        && (forall j :: i < j < |init| ==> !StoredBy(init[j], outcome, product, pharmacy));
      assert rows[i] == init[i];
      forall j | i < j < |rows|
        ensures !StoredBy(rows[j], outcome, product, pharmacy)
      {
        if j < n {
          assert rows[j] == init[j];
        }
      }
    }
  }

  /**
   * What the loop returns for a pair: an entry exactly when some row for
   * that pair succeeded, and then the record of the last such row.
   */
  lemma CollectedEntries(rows: seq<InputRow>, outcome: Outcome, product: string, pharmacy: string)
    ensures Lookup(Collect(rows, outcome), product, pharmacy).Some? <==>
      exists i :: 0 <= i < |rows| && StoredBy(rows[i], outcome, product, pharmacy)
    ensures Lookup(Collect(rows, outcome), product, pharmacy).Some? ==>
      exists i :: 0 <= i < |rows|
        && StoredBy(rows[i], outcome, product, pharmacy)
        && Lookup(Collect(rows, outcome), product, pharmacy).value == outcome(rows[i]).value
        && (forall j :: i < j < |rows| ==> !StoredBy(rows[j], outcome, product, pharmacy))
  {
    CollectLookup(rows, outcome, product, pharmacy);
    LastStoredSomeIff(rows, outcome, product, pharmacy);
    if LastStored(rows, outcome, product, pharmacy).Some? {
      LastStoredIsLastWrite(rows, outcome, product, pharmacy);
    }
  }

  /** A row whose URL is not recognised, or whose adapter raises, leaves the result as it was. */
  lemma SkippedRow(rows: seq<InputRow>, row: InputRow, outcome: Outcome)
    requires outcome(row).Failure?
    ensures Collect(rows + [row], outcome) == Collect(rows, outcome)
  {
    assert (rows + [row])[..|rows|] == rows;
  }

  /** A successful row is stored under its pair, and every other pair keeps its entry. */
  lemma StoredRow(rows: seq<InputRow>, row: InputRow, outcome: Outcome)
    requires outcome(row).Success?
    ensures Lookup(Collect(rows + [row], outcome), row.productName, row.pharmacy) == Some(outcome(row).value)
    ensures forall p, ph :: (p, ph) != (row.productName, row.pharmacy) ==>
      Lookup(Collect(rows + [row], outcome), p, ph) == Lookup(Collect(rows, outcome), p, ph)
  {
    assert (rows + [row])[..|rows|] == rows;
  }

  /** A row with an unrecognised URL is skipped. */
  lemma UnrecognizedUrlSkipped(rows: seq<InputRow>, row: InputRow, today: Day, scrape: Scraper)
    requires Dispatch(row.url).None?
    ensures Collect(rows + [row], RowOutcome(today, scrape)) == Collect(rows, RowOutcome(today, scrape))
  {
    SkippedRow(rows, row, RowOutcome(today, scrape));
  }

  /**
   * Every record `extract_data` returns is complete: it holds all eleven
   * keys, its name and pharmacy are the pair it is stored under, and it
   * carries the run's date.
   */
  lemma ExtractedRecordsComplete(rows: seq<InputRow>, today: Day, scrape: Scraper, product: string, pharmacy: string)
    requires Honest(scrape)
    requires Lookup(Collect(rows, RowOutcome(today, scrape)), product, pharmacy).Some?
    ensures forall k :: Lookup(Collect(rows, RowOutcome(today, scrape)), product, pharmacy).value.Get(k).Some?
    ensures Lookup(Collect(rows, RowOutcome(today, scrape)), product, pharmacy).value.Get(NameKey) == Some(Str(product))
    ensures Lookup(Collect(rows, RowOutcome(today, scrape)), product, pharmacy).value.Get(PharmacyKey) == Some(Str(pharmacy))
    ensures Lookup(Collect(rows, RowOutcome(today, scrape)), product, pharmacy).value.Get(DateKey) == Some(Str(FormatDate(today)))
  {
    var outcome := RowOutcome(today, scrape);
    CollectedEntries(rows, outcome, product, pharmacy);
    var i :| 0 <= i < |rows|
      && StoredBy(rows[i], outcome, product, pharmacy)
      && Lookup(Collect(rows, outcome), product, pharmacy).value == outcome(rows[i]).value;
    assert outcome(rows[i]) == ProcessRow(rows[i], today, scrape);
    ProcessedRecord(rows[i], today, scrape);
    assert NameKey !in ScrapedKeys && PharmacyKey !in ScrapedKeys && DateKey !in ScrapedKeys;
  }
}
