/**
 * The table the transformation stage builds with pandas: cells after
 * `replace({None: np.nan})`, columns created from the records' keys, the
 * per-column `apply` calls for dates and title case, and the final renaming
 * (src/transformation/transform_data.py).
 */
module Frames {
  import opened Wrappers
  import opened PyStr
  import opened Records
  import opened Dates

  // ---------------------------------------------------------------------
  // The table: `pd.DataFrame(output_data)` and `replace({None: np.nan})`
  // ---------------------------------------------------------------------

  /** A table cell: NaN/NaT, or a string, boolean, integer or timestamp. */
  datatype Cell = Missing | Text(s: string) | Flag(b: bool) | Whole(i: int) | When(d: Day)

  /**
   * The cell a record slot becomes: a key the dict lacks and a key mapped to
   * `None` both end up as NaN.
   */
  function CellOf(v: Option<Value>): (c: Cell)
    ensures c == Missing <==> v.None? || v == Some(Null)
    ensures v.Some? && v.value.Str? ==> c == Text(v.value.s)
  {
    match v
    case None => Missing
    case Some(Null) => Missing
    case Some(Str(s)) => Text(s)
    case Some(Bool(b)) => Flag(b)
    case Some(Int(i)) => Whole(i)
  }

  type Row = map<Key, Cell>

  /** The cell of `row` in column `k`; NaN where the row has no such column. */
  function At(row: Row, k: Key): Cell {
    if k in row then row[k] else Missing
  }

  /** A table: its columns in order and one row per record. */
  datatype Frame = Frame(columns: seq<Key>, rows: seq<Row>)

  /** Some record has key `k`, so the table gets a column for it. */
  predicate Holds(records: seq<Record>, k: Key) {
    exists i :: 0 <= i < |records| && records[i].Get(k).Some?
  }

  function ColumnsFrom(keys: seq<Key>, records: seq<Record>): (cols: seq<Key>)
    ensures forall k :: k in cols <==> k in keys && Holds(records, k)
    ensures (forall i, j :: 0 <= i < j < |keys| ==> keys[i] != keys[j]) ==>
      forall i, j :: 0 <= i < j < |cols| ==> cols[i] != cols[j]
    decreases |keys|
  {
    if keys == [] then []
    else
      var rest := ColumnsFrom(keys[1..], records);
      assert forall k :: k in keys <==> k == keys[0] || k in keys[1..];
      if Holds(records, keys[0]) then [keys[0]] + rest else rest
  }

  /** The position of each key in the canonical order. */
  function KeyIndex(k: Key): (i: nat)
    ensures i < |RecordKeys| && RecordKeys[i] == k
  {
    match k
    case DateKey => 0
    case NameKey => 1
    case PharmacyKey => 2
    case PriceKey => 3
    case LabNameKey => 4
    case BioequivalentKey => 5
    case IsAvailableKey => 6
    case ActivePrincipleKey => 7
    case SkuKey => 8
    case WebNameKey => 9
    case UrlKey => 10
  }

  /** The canonical order lists every key, each once. */
  lemma RecordKeysListEachKeyOnce()
    ensures forall k :: k in RecordKeys
    ensures forall i, j :: 0 <= i < j < |RecordKeys| ==> RecordKeys[i] != RecordKeys[j]
  {
    forall k ensures k in RecordKeys {
      var _ := KeyIndex(k);
    }
    forall i | 0 <= i < |RecordKeys|
      ensures KeyIndex(RecordKeys[i]) == i
    {
    }
  }

  /**
   * The table's columns: the union of the records' keys, each once, in the
   * order the extractor writes them.
   */
  function Columns(records: seq<Record>): (cols: seq<Key>)
    ensures forall k :: k in cols <==> Holds(records, k)
    ensures forall i, j :: 0 <= i < j < |cols| ==> cols[i] != cols[j]
  {
    RecordKeysListEachKeyOnce();
    ColumnsFrom(RecordKeys, records)
  }

  /** Keys that some record holds are all kept. */
  lemma {:induction false} ColumnsFromAllHeld(keys: seq<Key>, records: seq<Record>)
    requires forall k :: k in keys ==> Holds(records, k)
    ensures ColumnsFrom(keys, records) == keys
    decreases |keys|
  {
    if keys != [] {
      assert forall k :: k in keys[1..] ==> k in keys;
      ColumnsFromAllHeld(keys[1..], records);
      assert Holds(records, keys[0]);
      assert [keys[0]] + keys[1..] == keys;
    }
  }

  /** When every key is held by some record, the table has all eleven columns in the canonical order. */
  lemma ColumnsAllHeld(records: seq<Record>)
    requires forall k :: Holds(records, k)
    ensures Columns(records) == RecordKeys
  {
    ColumnsFromAllHeld(RecordKeys, records);
  }

  function RowOf(rec: Record, cols: seq<Key>): Row {
    map k | k in cols :: CellOf(rec.Get(k))
  }

  function ToFrame(records: seq<Record>): (f: Frame)
    ensures |f.rows| == |records|
  {
    var cols := Columns(records);
    Frame(cols, seq(|records|, i requires 0 <= i < |records| => RowOf(records[i], cols)))
  }

  /** `df[key] = df[key].apply(g)`, for a column the table has. */
  function MapColumn(f: Frame, key: Key, g: Cell -> Cell): Frame {
    Frame(f.columns, seq(|f.rows|, i requires 0 <= i < |f.rows| => MapCell(f.rows[i], key, g)))
  }

  function MapCell(row: Row, key: Key, g: Cell -> Cell): Row {
    if key in row then row[key := g(row[key])] else row
  }

  /** Applying a function to one column changes that column's cells and no other. */
  lemma MapColumnCell(f: Frame, key: Key, g: Cell -> Cell, i: nat, k: Key)
    requires i < |f.rows|
    ensures |MapColumn(f, key, g).rows| == |f.rows|
    ensures MapColumn(f, key, g).columns == f.columns
    ensures At(MapColumn(f, key, g).rows[i], k) == if k == key && k in f.rows[i] then g(f.rows[i][k]) else At(f.rows[i], k)
    ensures (k in MapColumn(f, key, g).rows[i]) == (k in f.rows[i])
  {
  }

  // ---------------------------------------------------------------------
  // `pd.to_datetime(df['date'], errors='coerce')`
  // ---------------------------------------------------------------------

  /** Text that names a day becomes that timestamp; anything else becomes NaT. */
  function ToDatetime(c: Cell): (r: Cell)
    ensures r.When? || r.Missing?
    ensures c.When? ==> r == c
    ensures c.Text? ==> (r.When? <==> ParseDate(c.s).Some?) && (r.When? ==> ParseDate(c.s) == Some(r.d))
    ensures !c.Text? && !c.When? ==> r == Missing
  {
    match c
    case Text(s) => (match ParseDate(s) case Some(d) => When(d) case None => Missing)
    case When(d) => When(d)
    case _ => Missing
  }

  /** The dates the extractor writes read back as the same day, or as NaT outside the timestamp range. */
  lemma ToDatetimeOfFormatted(d: Day)
    ensures InTimestampRange(d) ==> ToDatetime(Text(FormatDate(d))) == When(d)
    ensures !InTimestampRange(d) ==> ToDatetime(Text(FormatDate(d))) == Missing
  {
    if InTimestampRange(d) {
      ParseFormatRoundTrip(d);
    } else {
      OutOfRangeIsNull(d);
    }
  }

  function ParseDates(f: Frame): (r: Result<Frame, Error>)
    ensures DateKey !in f.columns <==> r == Failure(MissingColumn("date"))
  {
    if DateKey !in f.columns then Failure(MissingColumn(KeyName(DateKey)))
    else Success(MapColumn(f, DateKey, ToDatetime))
  }

  // ---------------------------------------------------------------------
  // `df[col].apply(lambda x: x.title() if isinstance(x, str) else x)`
  // ---------------------------------------------------------------------

  function TitleCell(c: Cell): (r: Cell)
    ensures !c.Text? ==> r == c
    ensures c.Text? ==> r.Text? && |r.s| == |c.s|
  {
    match c
    case Text(s) => Text(Title(s))
    case _ => c
  }

  /** Title-casing a column twice is the same as doing it once. */
  lemma TitleCellIdempotent(c: Cell)
    ensures TitleCell(TitleCell(c)) == TitleCell(c)
  {
    if c.Text? {
      TitleIdempotent(c.s);
    }
  }

  function TitleColumn(f: Frame, key: Key): (r: Result<Frame, Error>)
    ensures key !in f.columns <==> r == Failure(MissingColumn(KeyName(key)))
  {
    if key !in f.columns then Failure(MissingColumn(KeyName(key)))
    else Success(MapColumn(f, key, TitleCell))
  }

  // ---------------------------------------------------------------------
  // `df.rename(columns={...})`
  // ---------------------------------------------------------------------

  /** The spreadsheet heading each column gets. */
  function DisplayName(k: Key): string {
    match k
    case DateKey => "Fecha"
    case NameKey => "Nombre del Remedio"
    case PharmacyKey => "Farmacia"
    case PriceKey => "Precio"
    case LabNameKey => "Laboratorio"
    case BioequivalentKey => "\U{bf}Es Bioequivalente?"
    case IsAvailableKey => "\U{bf}Stock?"
    case ActivePrincipleKey => "Principio Activo"
    case SkuKey => "SKU"
    case WebNameKey => "Nombre (webpage)"
    case UrlKey => "URL"
  }

  /** The renaming is one-to-one, so no two columns end up under the same heading. */
  lemma DisplayNameInjective(a: Key, b: Key)
    requires DisplayName(a) == DisplayName(b)
    ensures a == b
  {
  }

  /** The final table: headed columns and, per row, its cells in column order. */
  datatype Table = Table(header: seq<string>, rows: seq<seq<Cell>>)

  function Rename(f: Frame): (t: Table)
    ensures |t.header| == |f.columns| && |t.rows| == |f.rows|
    ensures forall i :: 0 <= i < |t.rows| ==> |t.rows[i]| == |f.columns|
  {
    Table(
      seq(|f.columns|, j requires 0 <= j < |f.columns| => DisplayName(f.columns[j])),
      seq(|f.rows|, i requires 0 <= i < |f.rows| =>
        seq(|f.columns|, j requires 0 <= j < |f.columns| => At(f.rows[i], f.columns[j]))))
  }

  /** Renaming keeps every cell where it was and gives distinct columns distinct headings. */
  lemma RenameKeepsCells(f: Frame)
    requires forall i, j :: 0 <= i < j < |f.columns| ==> f.columns[i] != f.columns[j]
    ensures forall i, j :: 0 <= i < j < |Rename(f).header| ==> Rename(f).header[i] != Rename(f).header[j]
    ensures forall i, j :: 0 <= i < |f.rows| && 0 <= j < |f.columns| ==> Rename(f).rows[i][j] == At(f.rows[i], f.columns[j])
  {
    var t := Rename(f);
    forall i, j | 0 <= i < j < |t.header|
      ensures t.header[i] != t.header[j]
    {
      if t.header[i] == t.header[j] {
        DisplayNameInjective(f.columns[i], f.columns[j]);
      }
    }
  }
}
