/**
 * The data the scraper passes around: record dicts from field name to a
 * Python value, the exceptions that end a row, and Python's insertion-ordered
 * dict used for the two-level `med_data` table.
 */
module Records {
  import opened Wrappers
  import opened PyStr

  /** A value a record dict holds: Python `None`, a `str`, a `bool` or an `int`. */
  datatype Value = Null | Str(s: string) | Bool(b: bool) | Int(i: int)

  /**
   * The keys a record dict uses.  The Python code writes them as string
   * literals; `KeyName` gives each one's text.
   */
  datatype Key =
    | DateKey | NameKey | PharmacyKey | PriceKey | LabNameKey | BioequivalentKey
    | IsAvailableKey | ActivePrincipleKey | SkuKey | WebNameKey | UrlKey

  function KeyName(k: Key): string {
    match k
    case DateKey => "date"
    case NameKey => "name"
    case PharmacyKey => "pharmacy"
    case PriceKey => "price"
    case LabNameKey => "lab_name"
    case BioequivalentKey => "bioequivalent"
    case IsAvailableKey => "is_available"
    case ActivePrincipleKey => "active_principle"
    case SkuKey => "sku"
    case WebNameKey => "web_name"
    case UrlKey => "url"
  }

  /** Distinct keys have distinct texts, so the string-keyed dicts of the source have the same shape. */
  lemma KeyNameInjective(a: Key, b: Key)
    requires KeyName(a) == KeyName(b)
    ensures a == b
  {
  }

  /** The eleven keys of a canonical record, in the order the extractor writes them. */
  const RecordKeys: seq<Key> :=
    [DateKey, NameKey, PharmacyKey, PriceKey, LabNameKey, BioequivalentKey, IsAvailableKey,
     ActivePrincipleKey, SkuKey, WebNameKey, UrlKey]

  /** The seven keys an adapter fills in from the page. */
  const ScrapedKeys: seq<Key> :=
    [PriceKey, LabNameKey, BioequivalentKey, IsAvailableKey, ActivePrincipleKey, SkuKey, WebNameKey]

  /**
   * A record dict such as `data` in the extractor.  Its keys come from the
   * fixed set above, so it is kept as one optional slot per key: `None` when
   * the dict lacks the key, `Some(Null)` when it maps the key to `None`.
   */
  datatype Record = Record(
    date: Option<Value> := None,
    name: Option<Value> := None,
    pharmacy: Option<Value> := None,
    price: Option<Value> := None,
    labName: Option<Value> := None,
    bioequivalent: Option<Value> := None,
    isAvailable: Option<Value> := None,
    activePrinciple: Option<Value> := None,
    sku: Option<Value> := None,
    webName: Option<Value> := None,
    url: Option<Value> := None)
  {
    /** `d.get(k)`, distinguishing a missing key from a `None` value. */
    function Get(k: Key): Option<Value> {
      match k
      case DateKey => date
      case NameKey => name
      case PharmacyKey => pharmacy
      case PriceKey => price
      case LabNameKey => labName
      case BioequivalentKey => bioequivalent
      case IsAvailableKey => isAvailable
      case ActivePrincipleKey => activePrinciple
      case SkuKey => sku
      case WebNameKey => webName
      case UrlKey => url
    }

    /** `d.update(other)`: the keys `other` holds take its values, the rest keep theirs. */
    function Update(other: Record): (r: Record)
      ensures forall k :: r.Get(k) == if other.Get(k).Some? then other.Get(k) else Get(k)
    {
      Record(
        Overwrite(date, other.date), Overwrite(name, other.name), Overwrite(pharmacy, other.pharmacy),
        Overwrite(price, other.price), Overwrite(labName, other.labName),
        Overwrite(bioequivalent, other.bioequivalent), Overwrite(isAvailable, other.isAvailable),
        Overwrite(activePrinciple, other.activePrinciple), Overwrite(sku, other.sku),
        Overwrite(webName, other.webName), Overwrite(url, other.url))
    }

    /** `d[k] = v` */
    function Set(k: Key, v: Value): (r: Record)
      ensures r.Get(k) == Some(v)
      ensures forall j :: j != k ==> r.Get(j) == Get(j)
    {
      match k
      case DateKey => this.(date := Some(v))
      case NameKey => this.(name := Some(v))
      case PharmacyKey => this.(pharmacy := Some(v))
      case PriceKey => this.(price := Some(v))
      case LabNameKey => this.(labName := Some(v))
      case BioequivalentKey => this.(bioequivalent := Some(v))
      case IsAvailableKey => this.(isAvailable := Some(v))
      case ActivePrincipleKey => this.(activePrinciple := Some(v))
      case SkuKey => this.(sku := Some(v))
      case WebNameKey => this.(webName := Some(v))
      case UrlKey => this.(url := Some(v))
    }
  }

  /** One slot after `update`: the written value if there is one. */
  function Overwrite(current: Option<Value>, written: Option<Value>): Option<Value> {
    if written.Some? then written else current
  }

  /** `{}` */
  const EmptyRecord: Record := Record()

  /** Python's `str(v)`, which is also what an f-string interpolates. */
  function ValueText(v: Value): string {
    match v
    case Null => "None"
    case Str(s) => s
    case Bool(b) => if b then "True" else "False"
    case Int(i) => IntToString(i)
  }

  /** `d.get(key) is not None` */
  predicate Present(d: Record, key: Key) {
    d.Get(key).Some? && d.Get(key).value != Null
  }

  /** The Python exceptions that end the processing of a row or of the run. */
  datatype Error =
    | MissingRequired(key: Key)     // ValueError raised by validate_data
    | UnrecognizedUrl(url: string)     // ValueError raised by the dispatcher
    | HttpStatus(code: int)            // HTTPError raised by handle_http_request
    | ElementNotFound(what: string)    // AttributeError: `.text` or `.find` on a `None` search result
    | NoAttribute(what: string)        // AttributeError on an object that lacks the attribute
    | IndexOutOfRange(what: string)    // IndexError
    | InvalidLiteral(text: string)     // ValueError raised by int()
    | TypeMismatch(what: string)       // TypeError, as in '$' + None
    | UnboundName(name: string)        // UnboundLocalError
    | SessionFailed(what: string)      // a Selenium navigation or wait error
    | MissingColumn(name: string)      // KeyError from a DataFrame column lookup
    | AdapterFailed(detail: string)    // any other exception an adapter raises

  /** A Python `dict` with string keys: its entries and the insertion order iteration follows. */
  datatype Dict<V> = Dict(order: seq<string>, entries: map<string, V>) {

    /** Every key appears once in the order, and the order lists exactly the keys. */
    ghost predicate Valid() {
      && (forall i, j :: 0 <= i < j < |order| ==> order[i] != order[j])
      && (forall k :: k in entries <==> k in order)
    }

    /** `d[k] = v`: an existing key keeps its place, a new key goes last. */
    function Put(k: string, v: V): (r: Dict<V>)
      ensures Valid() ==> r.Valid()
      ensures r.entries == entries[k := v]
      ensures r.order == if k in entries then order else order + [k]
    {
      if k in entries then Dict(order, entries[k := v]) else Dict(order + [k], entries[k := v])
    }
  }

  function EmptyDict<V>(): (d: Dict<V>)
    ensures d.Valid() && d.entries == map[]
  {
    Dict([], map[])
  }

  /** `med_data`: product name to pharmacy name to record. */
  type MedData = Dict<Dict<Record>>

  ghost predicate ValidMedData(d: MedData) {
    d.Valid() && forall p :: p in d.entries ==> d.entries[p].Valid()
  }

  /**
   * `if product not in med_data: med_data[product] = {}` and then
   * `med_data[product][pharmacy] = rec`: creating the inner dict when it is
   * missing and then assigning into it comes to `Store`.
   */
  method StoreNested(d: MedData, product: string, pharmacy: string, rec: Record) returns (r: MedData)
    ensures r == Store(d, product, pharmacy, rec)
  {
    r := d;
    if product !in r.entries {
      r := r.Put(product, EmptyDict());
    }
    var inner := r.entries[product].Put(pharmacy, rec);
    r := r.Put(product, inner);
  }

  /** The record stored for a (product, pharmacy) pair, if any. */
  function Lookup(d: MedData, product: string, pharmacy: string): Option<Record> {
    if product in d.entries && pharmacy in d.entries[product].entries
    then Some(d.entries[product].entries[pharmacy])
    else None
  }

  /**
   * `if product not in med_data: med_data[product] = {}` followed by
   * `med_data[product][pharmacy] = rec`.
   */
  function Store(d: MedData, product: string, pharmacy: string, rec: Record): (r: MedData)
    ensures ValidMedData(d) ==> ValidMedData(r)
    ensures Lookup(r, product, pharmacy) == Some(rec)
    ensures forall p, ph :: (p, ph) != (product, pharmacy) ==> Lookup(r, p, ph) == Lookup(d, p, ph)
  {
    var inner := if product in d.entries then d.entries[product] else EmptyDict();
    var updated := inner.Put(pharmacy, rec);
    PutInnerValid(d, product, updated);
    PutInnerLookup(d, product, inner, pharmacy, rec);
    d.Put(product, updated)
  }

  /** Putting a well-formed inner dict into a well-formed `med_data` keeps it well formed. */
  lemma PutInnerValid(d: MedData, product: string, inner: Dict<Record>)
    ensures ValidMedData(d) && inner.Valid() ==> ValidMedData(d.Put(product, inner))
  {
    var r := d.Put(product, inner);
    if ValidMedData(d) && inner.Valid() {
      forall p | p in r.entries
        ensures r.entries[p].Valid()
      {
        if p != product {
          assert r.entries[p] == d.entries[p];
        }
      }
    }
  }

  /**
   * Replacing the inner dict of `product` by `inner` with `pharmacy` set
   * changes the lookup of that one pair only, given that `inner` is what
   * `product` held before (or empty when it held nothing).
   */
  lemma PutInnerLookup(d: MedData, product: string, inner: Dict<Record>, pharmacy: string, rec: Record)
    requires inner == if product in d.entries then d.entries[product] else EmptyDict()
    ensures Lookup(d.Put(product, inner.Put(pharmacy, rec)), product, pharmacy) == Some(rec)
    ensures forall p, ph :: (p, ph) != (product, pharmacy) ==>
      Lookup(d.Put(product, inner.Put(pharmacy, rec)), p, ph) == Lookup(d, p, ph)
  {
    var updated := inner.Put(pharmacy, rec);
    var r := d.Put(product, updated);
    assert r.entries == d.entries[product := updated];
    forall p, ph | (p, ph) != (product, pharmacy)
      ensures Lookup(r, p, ph) == Lookup(d, p, ph)
    {
      if p != product && p in d.entries {
        assert r.entries[p] == d.entries[p];
      }
    }
  }
}
