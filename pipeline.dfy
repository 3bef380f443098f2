/**
 * Extraction followed by transformation: what the table built from one
 * extraction run holds.
 */
module Pipeline {
  import opened Wrappers
  import opened Records
  import opened Dates
  import opened Extract
  import opened OldExtract
  import opened Frames
  import opened Prices
  import opened Transform
  import opened PyStr
  import opened Pharmacy


  /**
   * Every record the extractor stores holds all eleven keys, so after a run
   * that stored anything the table has all eleven columns in the seed's
   * order, and the stage fails only on a price that does not clean.
   */
  lemma ExtractedColumns(rows: seq<InputRow>, today: Day, scrape: Scraper, clean: Cleaner)
    requires Honest(scrape)
    requires FlattenAll(Collect(rows, RowOutcome(today, scrape))) != []
    ensures Columns(FlattenAll(Collect(rows, RowOutcome(today, scrape)))) == RecordKeys
    ensures var records := FlattenAll(Collect(rows, RowOutcome(today, scrape)));
      Normalize(records, clean).Success? <==> forall i :: 0 <= i < |records| ==> clean(CellOf(records[i].Get(PriceKey))).Success?
  {
    var records := FlattenAll(Collect(rows, RowOutcome(today, scrape)));
    StoredRecordComplete(rows, today, scrape, records[0]);
    CompleteFirstRecord(records, clean);
  }

  /** A table whose first record holds every key has every column and fails only on a price. */
  lemma CompleteFirstRecord(records: seq<Record>, clean: Cleaner)
    requires records != [] && forall k :: records[0].Get(k).Some?
    ensures Columns(records) == RecordKeys
    ensures Normalize(records, clean).Success? <==> forall i :: 0 <= i < |records| ==> clean(CellOf(records[i].Get(PriceKey))).Success?
  {
    forall k ensures Holds(records, k) {
      assert records[0].Get(k).Some?;
    }
    ColumnsAllHeld(records);
    NormalizeSucceedsIff(records, clean);
  }

  /** A flattened record of an extraction run holds every key, its date being the run's. */
  lemma StoredRecordComplete(rows: seq<InputRow>, today: Day, scrape: Scraper, rec: Record)
    requires Honest(scrape)
    requires rec in FlattenAll(Collect(rows, RowOutcome(today, scrape)))
    ensures forall k :: rec.Get(k).Some?
    ensures rec.Get(DateKey) == Some(Str(FormatDate(today)))
  {
    var med := Collect(rows, RowOutcome(today, scrape));
    FlattenAllMembers(med, rec);
    var p, ph :| Lookup(med, p, ph) == Some(rec);
    ExtractedRecordsComplete(rows, today, scrape, p, ph);
  }

  /**
   * In the table of an extraction run, the date cell of every record is the
   * run's day (NaT outside the timestamp range).
   */
  lemma ExtractedDate(rows: seq<InputRow>, today: Day, scrape: Scraper, clean: Cleaner, rec: Record)
    requires Honest(scrape)
    requires rec in FlattenAll(Collect(rows, RowOutcome(today, scrape)))
    ensures FinalCell(rec, DateKey, clean) == if InTimestampRange(today) then When(today) else Missing
  {
    StoredRecordComplete(rows, today, scrape, rec);
    DateCellOfRun(rec, today, clean);
  }

  /** A record seeded on `today` ends up with `today` in its date cell, or NaT out of range. */
  lemma DateCellOfRun(rec: Record, today: Day, clean: Cleaner)
    requires rec.Get(DateKey) == Some(Str(FormatDate(today)))
    ensures FinalCell(rec, DateKey, clean) == if InTimestampRange(today) then When(today) else Missing
  {
    ToDatetimeOfFormatted(today);
  }

  /** A record the old driver stores lacks a URL. */
  lemma OldStoredLacksUrl(rows: seq<InputRow>, today: Day, scrape: Scraper, product: string, pharmacy: string)
    requires Honest(scrape)
    requires Lookup(Collect(rows, RowOutcomeOld(today, scrape)), product, pharmacy).Some?
    ensures Lookup(Collect(rows, RowOutcomeOld(today, scrape)), product, pharmacy).value.Get(UrlKey).None?
  {
    var outcome := RowOutcomeOld(today, scrape);
    CollectedEntries(rows, outcome, product, pharmacy);
    var i :| 0 <= i < |rows|
      && StoredBy(rows[i], outcome, product, pharmacy)
      && Lookup(Collect(rows, outcome), product, pharmacy).value == outcome(rows[i]).value;
    assert outcome(rows[i]) == OldProcessRow(rows[i], today, scrape);
    OldRecordsLackUrl(rows[i], today, scrape);
  }

  /**
   * The table built from a run of the old driver has no `url` column, so
   * no `URL` heading: the old seed never held one.
   */
  lemma OldTableLacksUrl(rows: seq<InputRow>, today: Day, scrape: Scraper, med: MedData)
    requires Honest(scrape)
    requires OldCollect(rows, RowOutcomeOld(today, scrape)) == Success(med)
    ensures ValidMedData(med)
    ensures UrlKey !in Columns(FlattenAll(med))
  {
    var records := FlattenAll(med);
    forall i | 0 <= i < |records|
      ensures records[i].Get(UrlKey).None?
    {
      FlattenAllMembers(med, records[i]);
      var p, ph :| Lookup(med, p, ph) == Some(records[i]);
      OldStoredLacksUrl(rows, today, scrape, p, ph);
    }
  }

  /**
   * The price text the drsimi adapter assembles from the page's currency
   * code `$`, a first integer part, the group separator `.` and a
   * three-digit second part is one that `clean_price` reads as the whole
   * amount: the first part times a thousand plus the second.
   */
  lemma DrSimiPriceCleans(x: nat, y: nat, more: seq<string>)
    requires y < 1000
    ensures Pow10(3) == 1000
    ensures var p := Some(DrSimiPrice(Some("$"), [NatToString(x), Pad(y, 3)] + more, Some(".")));
      && DrSimiPriceText(p) == Success("$" + NatToString(x) + "." + Pad(y, 3))
      && CleanPrice(Text(DrSimiPriceText(p).value)) == Success(Whole(DigitsValue(NatToString(x) + Pad(y, 3))))
    ensures DigitsValue(NatToString(x) + Pad(y, 3)) == x * 1000 + y
  {
    CleanPriceOfThousands(x, y);
  }
}
