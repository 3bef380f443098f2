/**
 * The transformation stage (src/transformation/transform_data.py): the
 * two-level `med_data` dict is flattened into a list of record dicts, loaded
 * into a table, its dates parsed, two text columns title-cased, its prices
 * turned into integers and its columns renamed for the spreadsheet.
 */
module Transform {
  import opened Wrappers
  import opened Records
  import opened Frames
  import opened Prices

  // ---------------------------------------------------------------------
  // Flattening: `for name, pharmacy in med_data.items(): for ...: append`
  // ---------------------------------------------------------------------

  /** The records of one inner dict, in its insertion order. */
  function InnerRows(d: Dict<Record>): seq<Record>
    requires d.Valid()
  {
    seq(|d.order|, j requires 0 <= j < |d.order| => d.entries[d.order[j]])
  }

  /** The records of the first `n` products, each product's pharmacies in their own order. */
  function Flattened(med: MedData, n: nat): seq<Record>
    requires ValidMedData(med) && n <= |med.order|
  {
    if n == 0 then [] else Flattened(med, n - 1) + InnerRows(med.entries[med.order[n - 1]])
  }

  /** `output_data` once both loops have run. */
  function FlattenAll(med: MedData): seq<Record>
    requires ValidMedData(med)
  {
    Flattened(med, |med.order|)
  }

  /** The nested loop of lines 27-30, appending one record at a time. */
  method FlattenRecords(med: MedData) returns (outputData: seq<Record>)
    requires ValidMedData(med)
    ensures outputData == FlattenAll(med)
  {
    outputData := [];
    var i := 0;
    while i < |med.order|
      invariant i <= |med.order|
      invariant outputData == Flattened(med, i)
    {
      var inner := med.entries[med.order[i]];
      var j := 0;
      while j < |inner.order|
        invariant j <= |inner.order|
        invariant outputData == Flattened(med, i) + InnerRows(inner)[..j]
      {
        assert InnerRows(inner)[..j + 1] == InnerRows(inner)[..j] + [inner.entries[inner.order[j]]];
        outputData := outputData + [inner.entries[inner.order[j]]];
        j := j + 1;
      }
      assert InnerRows(inner)[..j] == InnerRows(inner);
      i := i + 1;
    }
  }

  /** A record is among an inner dict's rows exactly when some pharmacy maps to it. */
  lemma InnerRowsMembers(d: Dict<Record>, rec: Record)
    requires d.Valid()
    ensures rec in InnerRows(d) <==> exists ph :: ph in d.entries && d.entries[ph] == rec
  {
    if rec in InnerRows(d) {
      var j :| 0 <= j < |d.order| && InnerRows(d)[j] == rec;
      assert d.order[j] in d.entries;
    }
    if exists ph :: ph in d.entries && d.entries[ph] == rec {
      var ph :| ph in d.entries && d.entries[ph] == rec;
      assert ph in d.order;
      var j :| 0 <= j < |d.order| && d.order[j] == ph;
      assert InnerRows(d)[j] == rec;
    }
  }

  /** Some pharmacy of `product` maps to `rec`. */
  ghost predicate StoredUnder(med: MedData, product: string, rec: Record) {
    exists ph :: Lookup(med, product, ph) == Some(rec)
  }

  /** The records of the first `n` products are those of the first `n - 1` and those of product `n - 1`. */
  lemma FlattenedLastMembers(med: MedData, n: nat, rec: Record)
    requires ValidMedData(med) && 0 < n <= |med.order|
    ensures rec in Flattened(med, n) <==> rec in Flattened(med, n - 1) || StoredUnder(med, med.order[n - 1], rec)
  {
    var product := med.order[n - 1];
    var inner := med.entries[product];
    assert Flattened(med, n) == Flattened(med, n - 1) + InnerRows(inner);
    InnerRowsMembers(inner, rec);
    if StoredUnder(med, product, rec) {
      var ph :| Lookup(med, product, ph) == Some(rec);
      assert ph in inner.entries && inner.entries[ph] == rec;
    }
    if rec in InnerRows(inner) {
      var ph :| ph in inner.entries && inner.entries[ph] == rec;
      assert Lookup(med, product, ph) == Some(rec);
    }
  }

  /** Every record among the first `n` products' rows is stored under one of them. */
  lemma {:induction false} FlattenedSound(med: MedData, n: nat, rec: Record)
    requires ValidMedData(med) && n <= |med.order|
    requires rec in Flattened(med, n)
    ensures exists i :: 0 <= i < n && StoredUnder(med, med.order[i], rec)
  {
    FlattenedLastMembers(med, n, rec);
    if rec in Flattened(med, n - 1) {
      FlattenedSound(med, n - 1, rec);
      var i :| 0 <= i < n - 1 && StoredUnder(med, med.order[i], rec);
      assert 0 <= i < n && StoredUnder(med, med.order[i], rec);
    } else {
      assert StoredUnder(med, med.order[n - 1], rec);
    }
  }

  /** Every record stored under one of the first `n` products is among their rows. */
  lemma {:induction false} FlattenedComplete(med: MedData, n: nat, i: nat, rec: Record)
    requires ValidMedData(med) && i < n <= |med.order|
    requires StoredUnder(med, med.order[i], rec)
    ensures rec in Flattened(med, n)
  {
    FlattenedLastMembers(med, n, rec);
    if i < n - 1 {
      FlattenedComplete(med, n - 1, i, rec);
    }
  }

  /**
   * Flattening neither loses nor invents records: the list holds exactly the
   * records stored under some (product, pharmacy) pair.
   */
  lemma FlattenAllMembers(med: MedData, rec: Record)
    requires ValidMedData(med)
    ensures rec in FlattenAll(med) <==> exists p, ph :: Lookup(med, p, ph) == Some(rec)
  {
    if rec in FlattenAll(med) {
      FlattenAllSound(med, rec);
    }
    if exists p, ph :: Lookup(med, p, ph) == Some(rec) {
      var p, ph :| Lookup(med, p, ph) == Some(rec);
      FlattenAllComplete(med, p, ph, rec);
    }
  }

  /** Every flattened record is stored under some pair. */
  lemma FlattenAllSound(med: MedData, rec: Record)
    requires ValidMedData(med) && rec in FlattenAll(med)
    ensures exists p, ph :: Lookup(med, p, ph) == Some(rec)
  {
    FlattenedSound(med, |med.order|, rec);
    var i :| 0 <= i < |med.order| && StoredUnder(med, med.order[i], rec);
    var ph :| Lookup(med, med.order[i], ph) == Some(rec);
  }

  /** Every stored record is flattened. */
  lemma FlattenAllComplete(med: MedData, p: string, ph: string, rec: Record)
    requires ValidMedData(med) && Lookup(med, p, ph) == Some(rec)
    ensures rec in FlattenAll(med)
  {
    assert p in med.entries;
    assert p in med.order;
    var i :| 0 <= i < |med.order| && med.order[i] == p;
    assert StoredUnder(med, med.order[i], rec);
    FlattenedComplete(med, |med.order|, i, rec);
  }

  /** A price cleaner: `clean_price` as written (`CleanPrice`) or as intended (`CleanPriceIntended`). */
  type Cleaner = Cell -> Result<Cell, Error>

  /**
   * `df['price'].apply(clean)`: the rows in order, the first `ValueError`
   * ending the whole stage.
   */
  function CleanRows(rows: seq<Row>, clean: Cleaner): (r: Result<seq<Row>, Error>)
    ensures r.Success? <==> forall i :: 0 <= i < |rows| ==> clean(At(rows[i], PriceKey)).Success?
    ensures r.Success? ==> |r.value| == |rows|
    ensures r.Success? ==> forall i :: 0 <= i < |rows| ==> r.value[i] == MapCell(rows[i], PriceKey, CleanedOr(clean))
    ensures r.Failure? ==> exists i :: 0 <= i < |rows| && FirstUnclean(rows, clean, i) && clean(At(rows[i], PriceKey)) == Failure(r.error)
    decreases |rows|
  {
    if rows == [] then Success([])
    else
      match clean(At(rows[0], PriceKey))
      case Failure(e) =>
        assert FirstUnclean(rows, clean, 0);
        Failure(e)
      case Success(_) =>
        var rest := CleanRows(rows[1..], clean);
        CleanRowsTail(rows, clean);
        match rest
        case Failure(e) =>
          var i :| 0 <= i < |rows| - 1 && FirstUnclean(rows[1..], clean, i) && clean(At(rows[1..][i], PriceKey)) == Failure(e);
          FirstUncleanShift(rows, clean, i);
          Failure(e)
        case Success(tail) => Success([MapCell(rows[0], PriceKey, CleanedOr(clean))] + tail)
  }

  /** Row `i` is the first whose price does not clean. */
  predicate FirstUnclean(rows: seq<Row>, clean: Cleaner, i: nat)
    requires i < |rows|
  {
    clean(At(rows[i], PriceKey)).Failure? && forall j :: 0 <= j < i ==> clean(At(rows[j], PriceKey)).Success?
  }

  lemma CleanRowsTail(rows: seq<Row>, clean: Cleaner)
    requires rows != []
    ensures forall i :: 1 <= i < |rows| ==> rows[i] == rows[1..][i - 1]
  {
  }

  lemma FirstUncleanShift(rows: seq<Row>, clean: Cleaner, i: nat)
    requires i < |rows| - 1 && clean(At(rows[0], PriceKey)).Success?
    requires FirstUnclean(rows[1..], clean, i)
    ensures FirstUnclean(rows, clean, i + 1) && rows[i + 1] == rows[1..][i]
  {
    forall j | 0 <= j < i + 1
      ensures clean(At(rows[j], PriceKey)).Success?
    {
      if j > 0 {
        assert rows[j] == rows[1..][j - 1];
      }
    }
  }

  /** The cleaned cell, for a cell known to clean. */
  function CleanedOr(clean: Cleaner): Cell -> Cell {
    c => match clean(c) case Success(p) => p case Failure(_) => Missing
  }

  /** `df['price'] = df['price'].apply(clean)`: a `KeyError` without the column, else `CleanRows`. */
  function CleanPrices(f: Frame, clean: Cleaner): (r: Result<Frame, Error>)
    ensures PriceKey !in f.columns ==> r == Failure(MissingColumn("price"))
    ensures PriceKey in f.columns ==> (r.Success? <==> CleanRows(f.rows, clean).Success?)
  {
    if PriceKey !in f.columns then Failure(MissingColumn(KeyName(PriceKey)))
    else
      var rows :- CleanRows(f.rows, clean);
      Success(Frame(f.columns, rows))
  }

  // ---------------------------------------------------------------------
  // The whole stage
  // ---------------------------------------------------------------------

  /**
   * Lines 32-70 on the flattened records, with `clean` as the price
   * cleaner: a table, or the exception that ends the stage.
   */
  function Normalize(records: seq<Record>, clean: Cleaner): (r: Result<Table, Error>)
    ensures !Holds(records, DateKey) ==> r == Failure(MissingColumn("date"))
    ensures r.Success? ==> |r.value.rows| == |records| && |r.value.header| == |Columns(records)|
  {
    var f := ToFrame(records);
    var dated :- ParseDates(f);
    var titled :- TitleColumn(dated, ActivePrincipleKey);
    var labelled :- TitleColumn(titled, LabNameKey);
    var priced :- CleanPrices(labelled, clean);
    Success(Rename(priced))
  }

  /**
   * `transform_data(med_data)`, with the decimal part of prices removed as
   * intended; `Normalize(FlattenAll(med), CleanPrice)` is the stage exactly
   * as written.
   */
  method TransformData(med: MedData) returns (r: Result<Table, Error>)
    requires ValidMedData(med)
    ensures r == Normalize(FlattenAll(med), CleanPriceIntended)
  {
    var outputData := FlattenRecords(med);
    r := Normalize(outputData, CleanPriceIntended);
  }

  /**
   * What each cell of the final table holds, stated one record slot at a
   * time: dates parsed, the two text columns title-cased, prices cleaned and
   * every other slot carried over.
   */
  function FinalCell(rec: Record, k: Key, clean: Cleaner): Cell {
    var c := CellOf(rec.Get(k));
    match k
    case DateKey => ToDatetime(c)
    case ActivePrincipleKey => TitleCell(c)
    case LabNameKey => TitleCell(c)
    case PriceKey => CleanedOr(clean)(c)
    case _ => c
  }

  /** The four columns the stage looks up by name. */
  predicate HasUsedColumns(records: seq<Record>) {
    Holds(records, DateKey) && Holds(records, ActivePrincipleKey) && Holds(records, LabNameKey) && Holds(records, PriceKey)
  }

  /** The frame just before prices are cleaned, when the three lookups before it succeed. */
  function BeforeCleaning(records: seq<Record>): Frame {
    MapColumn(MapColumn(MapColumn(ToFrame(records), DateKey, ToDatetime), ActivePrincipleKey, TitleCell), LabNameKey, TitleCell)
  }

  /** The cells of the frame before prices are cleaned. */
  lemma BeforePrices(records: seq<Record>, i: nat, k: Key, clean: Cleaner)
    requires i < |records|
    ensures var g := BeforeCleaning(records);
      && |g.rows| == |records| && g.columns == ToFrame(records).columns
      && (k in g.rows[i] <==> Holds(records, k))
      && At(g.rows[i], k) == (if k == PriceKey then CellOf(records[i].Get(k)) else if Holds(records, k) then FinalCell(records[i], k, clean) else Missing)
  {
    var f := ToFrame(records);
    var f1 := MapColumn(f, DateKey, ToDatetime);
    var f2 := MapColumn(f1, ActivePrincipleKey, TitleCell);
    MapColumnCell(f, DateKey, ToDatetime, i, k);
    MapColumnCell(f1, ActivePrincipleKey, TitleCell, i, k);
    MapColumnCell(f2, LabNameKey, TitleCell, i, k);
    assert f.rows[i] == RowOf(records[i], f.columns);
    assert k in f.rows[i] <==> Holds(records, k);
    if k in f.rows[i] {
      assert f.rows[i][k] == CellOf(records[i].Get(k));
    }
  }

  /** With the three columns before it present, the stage comes down to cleaning the prices. */
  lemma NormalizeAfterLookups(records: seq<Record>, clean: Cleaner)
    requires Holds(records, DateKey) && Holds(records, ActivePrincipleKey) && Holds(records, LabNameKey)
    ensures Normalize(records, clean) == (
      match CleanPrices(BeforeCleaning(records), clean)
      case Success(h) => Success(Rename(h))
      case Failure(e) => Failure(e))
  {
  }

  /** Without one of the three columns looked up before the prices, the stage raises `KeyError`. */
  lemma NormalizeMissingLookup(records: seq<Record>, clean: Cleaner)
    requires !(Holds(records, DateKey) && Holds(records, ActivePrincipleKey) && Holds(records, LabNameKey))
    ensures Normalize(records, clean).Failure?
  {
    var f := ToFrame(records);
    if Holds(records, DateKey) {
      var dated := MapColumn(f, DateKey, ToDatetime);
      assert ParseDates(f) == Success(dated);
      if Holds(records, ActivePrincipleKey) {
        assert TitleColumn(dated, ActivePrincipleKey) == Success(MapColumn(dated, ActivePrincipleKey, TitleCell));
      }
    }
  }

  /** Cleaning succeeds when the price column exists and every record's price cleans. */
  lemma CleanBeforeCleaning(records: seq<Record>, clean: Cleaner)
    ensures CleanPrices(BeforeCleaning(records), clean).Success? <==>
      && Holds(records, PriceKey)
      && forall i :: 0 <= i < |records| ==> clean(CellOf(records[i].Get(PriceKey))).Success?
  {
    var g := BeforeCleaning(records);
    forall i | 0 <= i < |records|
      ensures At(g.rows[i], PriceKey) == CellOf(records[i].Get(PriceKey))
    {
      BeforePrices(records, i, PriceKey, clean);
    }
    assert PriceKey in g.columns <==> Holds(records, PriceKey);
  }

  /**
   * When the stage fails: no record at all has one of the four columns it
   * looks up (a `KeyError`), or some price does not clean (a `ValueError`).
   */
  lemma NormalizeSucceedsIff(records: seq<Record>, clean: Cleaner)
    ensures Normalize(records, clean).Success? <==>
      && HasUsedColumns(records)
      && forall i :: 0 <= i < |records| ==> clean(CellOf(records[i].Get(PriceKey))).Success?
  {
    if Holds(records, DateKey) && Holds(records, ActivePrincipleKey) && Holds(records, LabNameKey) {
      NormalizeAfterLookups(records, clean);
      CleanBeforeCleaning(records, clean);
    } else {
      NormalizeMissingLookup(records, clean);
    }
  }

  /** The table an empty run produces: none, since `df['date']` raises `KeyError`. */
  lemma NormalizeEmpty(clean: Cleaner)
    ensures Normalize([], clean) == Failure(MissingColumn("date"))
  {
    assert !Holds([], DateKey);
  }

  /** Each row of a cleaned frame is the row before with its price cell cleaned. */
  lemma CleanedRow(before: seq<Row>, clean: Cleaner, rows: seq<Row>, i: nat)
    requires i < |before|
    requires CleanRows(before, clean) == Success(rows)
    ensures |rows| == |before| && rows[i] == MapCell(before[i], PriceKey, CleanedOr(clean))
  {
  }

  /** A cell of the cleaned frame: the record's transformed slot, for every column the table has. */
  lemma CleanedCell(records: seq<Record>, clean: Cleaner, rows: seq<Row>, i: nat, k: Key)
    requires i < |records|
    requires CleanRows(BeforeCleaning(records).rows, clean) == Success(rows)
    ensures |rows| == |records|
    ensures Holds(records, k) ==> At(rows[i], k) == FinalCell(records[i], k, clean)
  {
    var before := BeforeCleaning(records).rows;
    BeforePrices(records, i, k, clean);
    CleanedRow(before, clean, rows, i);
    MapCellAt(before[i], clean, k);
  }

  /** Cleaning a row's price changes that cell alone. */
  lemma MapCellAt(row: Row, clean: Cleaner, k: Key)
    ensures At(MapCell(row, PriceKey, CleanedOr(clean)), k) ==
      if k == PriceKey && k in row then CleanedOr(clean)(row[k]) else At(row, k)
  {
  }

  /** The cleaned frame the stage renames. */
  lemma NormalizeRenames(records: seq<Record>, clean: Cleaner, t: Table)
    requires Normalize(records, clean) == Success(t)
    ensures CleanRows(BeforeCleaning(records).rows, clean).Success?
    ensures t == Rename(Frame(Columns(records), CleanRows(BeforeCleaning(records).rows, clean).value))
  {
    NormalizeSucceedsIff(records, clean);
    NormalizeAfterLookups(records, clean);
    CleanBeforeCleaning(records, clean);
  }

  /**
   * The stage's headings are the display names of the table's columns, each
   * once, and there is one row per record.
   */
  lemma NormalizeHeader(records: seq<Record>, clean: Cleaner, t: Table)
    requires Normalize(records, clean) == Success(t)
    ensures |t.header| == |Columns(records)| && |t.rows| == |records|
    ensures forall j :: 0 <= j < |t.header| ==> t.header[j] == DisplayName(Columns(records)[j])
    ensures forall i, j :: 0 <= i < j < |t.header| ==> t.header[i] != t.header[j]
    ensures forall i :: 0 <= i < |t.rows| ==> |t.rows[i]| == |t.header|
  {
    NormalizeRenames(records, clean, t);
    CleanedHeader(records, clean, CleanRows(BeforeCleaning(records).rows, clean).value);
  }

  /** The headings of the renamed cleaned frame. */
  lemma CleanedHeader(records: seq<Record>, clean: Cleaner, rows: seq<Row>)
    requires CleanRows(BeforeCleaning(records).rows, clean) == Success(rows)
    ensures var t := Rename(Frame(Columns(records), rows));
      && |t.header| == |Columns(records)| && |t.rows| == |records|
      && (forall j :: 0 <= j < |t.header| ==> t.header[j] == DisplayName(Columns(records)[j]))
      && (forall i, j :: 0 <= i < j < |t.header| ==> t.header[i] != t.header[j])
      && (forall i :: 0 <= i < |t.rows| ==> |t.rows[i]| == |t.header|)
  {
    RenameKeepsCells(Frame(Columns(records), rows));
  }

  /**
   * The stage, column by column, agrees with `FinalCell`, record by record:
   * each cell is the record's transformed slot.
   */
  lemma NormalizeCells(records: seq<Record>, clean: Cleaner, t: Table)
    requires Normalize(records, clean) == Success(t)
    ensures |t.rows| == |records| && forall i :: 0 <= i < |t.rows| ==> |t.rows[i]| == |Columns(records)|
    ensures forall i, j :: 0 <= i < |t.rows| && 0 <= j < |Columns(records)| ==>
      t.rows[i][j] == FinalCell(records[i], Columns(records)[j], clean)
  {
    NormalizeRenames(records, clean, t);
    RenamedCells(records, clean, CleanRows(BeforeCleaning(records).rows, clean).value);
  }

  /** The cells of the renamed cleaned frame, record by record. */
  lemma RenamedCells(records: seq<Record>, clean: Cleaner, rows: seq<Row>)
    requires CleanRows(BeforeCleaning(records).rows, clean) == Success(rows)
    ensures var t := Rename(Frame(Columns(records), rows));
      && |t.rows| == |records| && (forall i :: 0 <= i < |t.rows| ==> |t.rows[i]| == |Columns(records)|)
      && forall i, j :: 0 <= i < |t.rows| && 0 <= j < |Columns(records)| ==>
        t.rows[i][j] == FinalCell(records[i], Columns(records)[j], clean)
  {
    var cols := Columns(records);
    var h := Frame(cols, rows);
    RenameKeepsCells(h);
    forall i, j | 0 <= i < |records| && 0 <= j < |cols|
      ensures At(h.rows[i], cols[j]) == FinalCell(records[i], cols[j], clean)
    {
      CleanedCell(records, clean, h.rows, i, cols[j]);
    }
  }

}
