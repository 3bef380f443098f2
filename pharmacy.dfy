/**
 * The per-pharmacy adapters.  Fetching and HTML parsing are not modelled: each
 * adapter receives what BeautifulSoup or Selenium would have found on the page
 * (`None` where `find` finds nothing) and applies that site's own rules for
 * availability, price text, names and codes, then updates the record and runs
 * the site's required-field check.
 */
module Pharmacy {
  import opened Wrappers
  import opened PyStr
  import opened Records
  import opened Decorators

  /** The sixteen sites the extractor can dispatch to. */
  datatype Site =
    | Buhochile | Ahumada | Farmex | ElQuimico | Salcobrand | NovaSalud | DrSimi | EcoFarmacias
    | MercadoFarma | Meki | CruzVerde | Profar | Knop | FarmaciaJvf | Anticonceptivo | Farmaloop

  /** A page fetched with `requests.get`: its status code and what was found on it. */
  datatype Response<P> = Response(status: int, page: P)

  // ---------------------------------------------------------------------
  // Required-field lists (the arguments of validate_data)
  // ---------------------------------------------------------------------

  const FarmexRequired: seq<Key> := [PriceKey, LabNameKey, IsAvailableKey, SkuKey, WebNameKey]
  const SalcobrandRequired: seq<Key> := [PriceKey, BioequivalentKey, IsAvailableKey, WebNameKey]
  const BuhochileRequired: seq<Key> := [PriceKey, LabNameKey, BioequivalentKey, IsAvailableKey, ActivePrincipleKey, WebNameKey]
  const ElQuimicoRequired: seq<Key> := [PriceKey, LabNameKey, IsAvailableKey, ActivePrincipleKey, SkuKey, WebNameKey]
  const AhumadaRequired: seq<Key> := [PriceKey, LabNameKey, IsAvailableKey, ActivePrincipleKey, WebNameKey]
  const EcoFarmaciasRequired: seq<Key> := [PriceKey, IsAvailableKey, SkuKey, WebNameKey]
  const DrSimiRequired: seq<Key> := [PriceKey, BioequivalentKey, IsAvailableKey, SkuKey, WebNameKey]
  const NovaSaludRequired: seq<Key> := [PriceKey, LabNameKey, IsAvailableKey, ActivePrincipleKey, SkuKey, WebNameKey]
  const MercadoFarmaRequired: seq<Key> := [PriceKey, LabNameKey, IsAvailableKey, WebNameKey]
  const MekiRequired: seq<Key> := [PriceKey, LabNameKey, BioequivalentKey, IsAvailableKey, ActivePrincipleKey, WebNameKey]
  const CruzVerdeRequired: seq<Key> := [PriceKey, LabNameKey, WebNameKey]
  const ProfarRequired: seq<Key> := [PriceKey, LabNameKey, IsAvailableKey, ActivePrincipleKey, SkuKey, WebNameKey]
  const KnopRequired: seq<Key> := [PriceKey, LabNameKey, IsAvailableKey, SkuKey, WebNameKey]

  /** The required-field list of each site; the three Selenium-only sites have none. */
  function RequiredKeys(site: Site): Option<seq<Key>> {
    match site
    case Farmex => Some(FarmexRequired)
    case Salcobrand => Some(SalcobrandRequired)
    case Buhochile => Some(BuhochileRequired)
    case ElQuimico => Some(ElQuimicoRequired)
    case Ahumada => Some(AhumadaRequired)
    case EcoFarmacias => Some(EcoFarmaciasRequired)
    case DrSimi => Some(DrSimiRequired)
    case NovaSalud => Some(NovaSaludRequired)
    case MercadoFarma => Some(MercadoFarmaRequired)
    case Meki => Some(MekiRequired)
    case CruzVerde => Some(CruzVerdeRequired)
    case Profar => Some(ProfarRequired)
    case Knop => Some(KnopRequired)
    case FarmaciaJvf => None
    case Anticonceptivo => None
    case Farmaloop => None
  }

  /** Every required key is a scraped key, and every checked site requires a price and a web name. */
  lemma RequiredKeysAreScraped(site: Site)
    requires RequiredKeys(site).Some?
    ensures forall k :: k in RequiredKeys(site).value ==> k in ScrapedKeys
    ensures PriceKey in RequiredKeys(site).value && WebNameKey in RequiredKeys(site).value
  {
  }

  /**
   * What each adapter promises the extractor: when it succeeds, it has
   * written nothing but scraped fields, so the context fields it was given
   * are untouched, and each of the site's required fields holds a
   * non-`None` value.
   */
  ghost predicate Honours(site: Site, data: Record, r: Result<Record, Error>) {
    r.Success? ==>
      && (forall k :: k !in ScrapedKeys ==> r.value.Get(k) == data.Get(k))
      && (RequiredKeys(site).Some? ==> forall k :: k in RequiredKeys(site).value ==> Present(r.value, k))
  }

  // ---------------------------------------------------------------------
  // Shared helpers
  // ---------------------------------------------------------------------

  /** `.text` of a search result: `None` means nothing was found and `.text` raises. */
  function Found(o: Option<string>, what: string): Result<string, Error> {
    match o
    case Some(t) => Success(t)
    case None => Failure(ElementNotFound(what))
  }

  /** `x.text.strip() if x else None` */
  function StrippedOrNull(o: Option<string>): Value {
    match o
    case Some(t) => Str(Strip(t))
    case None => Null
  }

  /** `'$' + v`: only a `str` can follow the dollar sign. */
  function Dollar(v: Value): Result<Value, Error> {
    match v
    case Str(s) => Success(Str("$" + s))
    case _ => Failure(TypeMismatch("'$' + " + ValueText(v)))
  }

  /**
   * The fields an adapter assigns with `data.update({...})` (or one by one):
   * `None` for a key the site does not write.
   */
  datatype Scraped = Scraped(
    price: Option<Value> := None,
    labName: Option<Value> := None,
    bioequivalent: Option<Value> := None,
    isAvailable: Option<Value> := None,
    activePrinciple: Option<Value> := None,
    sku: Option<Value> := None,
    webName: Option<Value> := None)
  {
    /** The value written under `k`, if any. */
    function Get(k: Key): Option<Value> {
      match k
      case PriceKey => price
      case LabNameKey => labName
      case BioequivalentKey => bioequivalent
      case IsAvailableKey => isAvailable
      case ActivePrincipleKey => activePrinciple
      case SkuKey => sku
      case WebNameKey => webName
      case _ => None
    }
  }

  /** `data.update(fields)`: written keys take their new values, the others keep theirs. */
  function Apply(data: Record, fields: Scraped): (r: Record)
    ensures forall k :: r.Get(k) == if fields.Get(k).Some? then fields.Get(k) else data.Get(k)
  {
    data.(
      price := Overwrite(data.price, fields.price),
      labName := Overwrite(data.labName, fields.labName),
      bioequivalent := Overwrite(data.bioequivalent, fields.bioequivalent),
      isAvailable := Overwrite(data.isAvailable, fields.isAvailable),
      activePrinciple := Overwrite(data.activePrinciple, fields.activePrinciple),
      sku := Overwrite(data.sku, fields.sku),
      webName := Overwrite(data.webName, fields.webName))
  }

  /**
   * The end of every adapter: the fields are merged into `data` and, for the
   * sites that have one, the required-field check runs on the result.
   */
  function Finish(site: Site, data: Record, fields: Result<Scraped, Error>): (r: Result<Record, Error>)
    ensures Honours(site, data, r)
    ensures r.Success? ==> fields.Success? && r.value == Apply(data, fields.value)
    ensures fields.Failure? ==> r == Failure(fields.error)
    ensures fields.Success? && RequiredKeys(site).None? ==> r == Success(Apply(data, fields.value))
  {
    var f :- fields;
    var d := Apply(data, f);
    match RequiredKeys(site)
    case Some(required) => Validate(required, d)
    case None => Success(d)
  }

  /** For a site with required keys, finishing a parse is the check over the merged record. */
  lemma FinishValidates(site: Site, data: Record, f: Scraped)
    requires RequiredKeys(site).Some?
    ensures Finish(site, data, Success(f)) == Validate(RequiredKeys(site).value, Apply(data, f))
  {
  }

  /** When the adapter wrote a non-`None` value under every required key, the check passes. */
  lemma FinishAllWritten(site: Site, data: Record, f: Scraped)
    requires RequiredKeys(site).Some? ==> forall k :: k in RequiredKeys(site).value ==> f.Get(k).Some? && f.Get(k).value != Null
    ensures Finish(site, data, Success(f)) == Success(Apply(data, f))
  {
    var d := Apply(data, f);
    if RequiredKeys(site).Some? {
      var required := RequiredKeys(site).value;
      assert forall i :: 0 <= i < |required| ==> Present(d, required[i]) by {
        forall i | 0 <= i < |required|
          ensures Present(d, required[i])
        {
          assert required[i] in required;
          assert d.Get(required[i]) == f.Get(required[i]);
        }
      }
    }
  }

  /** A record that passed the check got each required field, non-`None`, from the page. */
  lemma FinishedRequired(site: Site, data: Record, fields: Result<Scraped, Error>, k: Key)
    requires Finish(site, data, fields).Success?
    requires RequiredKeys(site).Some? && k in RequiredKeys(site).value
    ensures fields.Success? && Present(Apply(data, fields.value), k)
  {
  }

  // ---------------------------------------------------------------------
  // farmex (pharmacy.py lines 39-86)
  // ---------------------------------------------------------------------

  datatype FarmexPage = FarmexPage(
    heading: Option<string>,      // h1.page-heading
    detailPrice: Option<string>,  // div.product-price div.detail-price
    stockText: Option<string>,    // div.product-price pre
    sku: Value,                   // JSON-LD "sku"
    brandName: Value)             // JSON-LD "brand"."name"

  /**
   * In stock when the integer after `': '` in the stripped stock text is
   * positive; a text without `': '` has no piece 1 and raises.
   */
  function FarmexInStock(stockText: string): (r: Result<bool, Error>)
    ensures !Contains(Strip(stockText), ": ") ==> r == Failure(IndexOutOfRange("stock_text.split(': ')[1]"))
  {
    SplitSingleIffAbsent(Strip(stockText), ": ");
    match SplitPiece(Strip(stockText), ": ", 1)
    case None => Failure(IndexOutOfRange("stock_text.split(': ')[1]"))
    case Some(count) =>
      match ParseInt(count)
      case None => Failure(InvalidLiteral(count))
      case Some(n) => Success(n > 0)
  }

  /** Name, price and stock text must all be on the page; availability is the stock rule. */
  function FarmexParse(p: FarmexPage): (r: Result<Scraped, Error>)
    ensures r.Success? <==>
      p.heading.Some? && p.detailPrice.Some? && p.stockText.Some? && FarmexInStock(p.stockText.value).Success?
    ensures r.Success? ==> r.value.isAvailable == Some(Bool(FarmexInStock(p.stockText.value).value))
    ensures r.Success? ==> r.value.price == Some(Str(Strip(p.detailPrice.value)))
    ensures r.Success? ==> r.value.webName == Some(Str(StripChar(p.heading.value, '"')))
  {
    var heading :- Found(p.heading, "h1.page-heading");
    var price :- Found(p.detailPrice, "div.detail-price");
    var stock :- Found(p.stockText, "pre");
    var inStock :- FarmexInStock(stock);
    Success(Scraped(
      price := Some(Str(Strip(price))),
      labName := Some(p.brandName),
      isAvailable := Some(Bool(inStock)),
      sku := Some(p.sku),
      webName := Some(Str(StripChar(heading, '"')))))
  }

  function FarmexAdapter(resp: Response<FarmexPage>, data: Record): (r: Result<Record, Error>)
    ensures resp.status != 200 ==> r == Failure(HttpStatus(resp.status))
    ensures Honours(Farmex, data, r)
    ensures r.Success? ==> resp.page.stockText.Some? && FarmexInStock(resp.page.stockText.value).Success?
    ensures r.Success? ==> r.value.isAvailable == Some(Bool(FarmexInStock(resp.page.stockText.value).value))
    ensures r.Success? ==> resp.page.detailPrice.Some? && r.value.price == Some(Str(Strip(resp.page.detailPrice.value)))
  {
    HandleHttpRequest(resp.status, resp.page, (p: FarmexPage) => Finish(Farmex, data, FarmexParse(p)))
  }

  /**
   * A line `caption + sep + str(n)` whose first occurrence of `sep` follows
   * the caption splits into the caption and the numeral, and has no
   * surrounding whitespace when the line does not start with any.
   */
  lemma IntLine(caption: string, sep: string, n: int)
    requires sep != [] && !IsDigit(sep[0]) && sep[0] != '-'
    requires caption + sep == [] || !IsSpace((caption + sep)[0])
    requires forall j: nat :: j < |caption| ==> !OccursAt(caption + sep + IntToString(n), sep, j)
    ensures Split(caption + sep + IntToString(n), sep) == [caption, IntToString(n)]
    ensures Strip(caption + sep + IntToString(n)) == caption + sep + IntToString(n)
  {
    var digits := IntToString(n);
    IntToStringChars(n);
    LeadCharAbsent(digits, sep);
    SplitAtFirst(caption, sep, digits);
    SplitWithoutSeparator(digits, sep);
    assert [caption] + [digits] == [caption, digits];
    IntLineStrip(caption + sep, digits);
  }

  /** A line that starts without whitespace and ends in a numeral is its own strip. */
  lemma IntLineStrip(head: string, digits: string)
    requires head != [] && !IsSpace(head[0])
    requires digits != [] && IsDigit(digits[|digits| - 1])
    ensures Strip(head + digits) == head + digits
  {
    var s := head + digits;
    assert s[|s| - 1] == digits[|digits| - 1];
    DigitNotSpace(s[|s| - 1]);
    assert s[0] == head[0];
    StripUnchanged(s);
  }

  /** A caption without `": "` has no occurrence of it before the separator that follows it. */
  lemma NoEarlyColonSpace(caption: string, rest: string)
    requires !Contains(caption, ": ")
    ensures forall j: nat :: j < |caption| ==> !OccursAt(caption + ": " + rest, ": ", j)
  {
    var s := caption + ": " + rest;
    forall j: nat | j < |caption|
      ensures !OccursAt(s, ": ", j)
    {
      if j + 2 <= |caption| {
        assert s[j..j + 2] == caption[j..j + 2];
        assert !OccursAt(caption, ": ", j);
      } else {
        assert s[j + 1] == ':';
      }
    }
  }

  /** A stock line `caption: n` (caption without `": "`) is in stock exactly when `n > 0`. */
  lemma FarmexStockCount(caption: string, n: int)
    requires caption == [] || !IsSpace(caption[0])
    requires !Contains(caption, ": ")
    ensures FarmexInStock(caption + ": " + IntToString(n)) == Success(n > 0)
  {
    ColonSpaceLine(caption, n);
    ParseIntOfIntToString(n);
  }

  /** A stored Farmex record whose stock line reads `caption: n` is available exactly when `n > 0`. */
  lemma FarmexStoredStock(resp: Response<FarmexPage>, data: Record, caption: string, n: int)
    requires caption == [] || !IsSpace(caption[0])
    requires !Contains(caption, ": ")
    requires resp.page.stockText == Some(caption + ": " + IntToString(n))
    requires FarmexAdapter(resp, data).Success?
    ensures FarmexAdapter(resp, data).value.isAvailable == Some(Bool(n > 0))
  {
    FarmexStockCount(caption, n);
  }

  /** Piece 1 of the stock line `caption: n` split on `": "` is the numeral of `n`. */
  lemma ColonSpaceLine(caption: string, n: int)
    requires caption == [] || !IsSpace(caption[0])
    requires !Contains(caption, ": ")
    ensures SplitPiece(Strip(caption + ": " + IntToString(n)), ": ", 1) == Some(IntToString(n))
  {
    NoEarlyColonSpace(caption, IntToString(n));
    assert (caption + ": ")[0] == if caption == [] then ':' else caption[0];
    IntLine(caption, ": ", n);
  }

  // ---------------------------------------------------------------------
  // salcobrand (pharmacy.py lines 88-155)
  // ---------------------------------------------------------------------

  /** The fields read from the `product_traker_data` script. */
  datatype SalcobrandTracker = SalcobrandTracker(name: Value, isAvailable: Value, price: Value, bioequivalent: Value)

  /** The `h4` "Laboratorio" heading and the text of its next `p` or `div` sibling. */
  datatype LabHeading = LabHeading(nextP: Option<string>, nextDiv: Option<string>)

  datatype SalcobrandPage = SalcobrandPage(
    tracker: Option<SalcobrandTracker>,  // None: no `var product_traker_data =` script
    ogDescription: Option<string>,       // meta og:description content
    skuSpan: Option<string>,             // span.sku
    hasDescriptionArea: bool,            // div.description-area
    labHeading: Option<LabHeading>)

  const ActiveLabel := "Principio Activo: "

  /** The longest prefix of `s` without `c`: what the class `[^c]+` consumes greedily. */
  function RunWithout(s: string, c: char): (r: string)
    ensures |r| <= |s| && r == s[..|r|] && c !in r
    ensures |r| < |s| ==> s[|r|] == c
    ensures s != [] && s[0] != c ==> r != []
    decreases |s|
  {
    if s == [] || s[0] == c then []
    else
      var rest := RunWithout(s[1..], c);
      assert s[..1 + |rest|] == [s[0]] + s[1..][..|rest|];
      [s[0]] + rest
  }

  /** `r'Principio Activo: ([^|]+)'` matches at `i`: the label, then at least one character other than `|`. */
  predicate ActiveMatchAt(text: string, i: nat) {
    OccursAt(text, ActiveLabel, i) && i + |ActiveLabel| < |text| && text[i + |ActiveLabel|] != '|'
  }

  /** A run without `c` followed by `c` is exactly what `[^c]+` consumes. */
  lemma RunWithoutStops(x: string, c: char, y: string)
    requires c !in x
    ensures RunWithout(x + [c] + y, c) == x
  {
    var s := x + [c] + y;
    var r := RunWithout(s, c);
    assert forall k :: 0 <= k < |x| ==> s[k] == x[k] && s[k] != c;
    assert s[|x|] == c;
    assert forall k :: 0 <= k < |r| ==> r[k] == s[k];
    assert |r| == |x|;
    assert r == s[..|x|] == x;
  }

  /**
   * The group of `re.search(r'Principio Activo: ([^|]+)', text)`, trying the
   * label at each position from `from` on: a match needs at least one
   * character other than `|` after the label.
   */
  function ActiveCaptureFrom(text: string, from: nat): (r: Option<string>)
    ensures r.Some? ==> r.value != [] && '|' !in r.value
    ensures r.Some? ==> exists i: nat :: from <= i && OccursAt(text, ActiveLabel + r.value, i)
    decreases |text| - from
  {
    match FindFrom(text, ActiveLabel, from)
    case None => None
    case Some(i) =>
      var start := i + |ActiveLabel|;
      if start < |text| && text[start] != '|' then
        var g := RunWithout(text[start..], '|');
        assert |g| <= |text| - start;
        assert text[i..i + |ActiveLabel + g|] == ActiveLabel + g by {
          assert text[i..start] == ActiveLabel;
          assert text[start..start + |g|] == g;
        }
        assert OccursAt(text, ActiveLabel + g, i);
        Some(g)
      else ActiveCaptureFrom(text, i + 1)
  }

  /** Position `i` is the first at or after `from` where the label is followed by a character other than `|`. */
  predicate FirstActiveMatch(text: string, from: nat, i: nat) {
    from <= i && ActiveMatchAt(text, i) && forall j: nat :: from <= j < i ==> !ActiveMatchAt(text, j)
  }

  /**
   * `re.search` reports the leftmost match: the capture is the run without
   * `|` after the first position where the label is followed by a character
   * other than `|`.
   */
  lemma {:induction false} ActiveCaptureLeftmost(text: string, from: nat)
    ensures ActiveCaptureFrom(text, from).Some? ==>
      exists i: nat :: FirstActiveMatch(text, from, i)
        && ActiveCaptureFrom(text, from).value == RunWithout(text[i + |ActiveLabel|..], '|')
    decreases |text| - from
  {
    match FindFrom(text, ActiveLabel, from)
    case None =>
    case Some(i) =>
      if ActiveMatchAt(text, i) {
        ActiveCaptureHit(text, from, i);
        ActiveFoundFirst(text, from, i);
      } else {
        ActiveCaptureSkip(text, from, i);
        ActiveCaptureLeftmost(text, i + 1);
        var later := ActiveCaptureFrom(text, i + 1);
        if later.Some? {
          var k: nat :| FirstActiveMatch(text, i + 1, k) && later.value == RunWithout(text[k + |ActiveLabel|..], '|');
          ActiveFirstShift(text, from, i, k);
        }
      }
  }

  /** A label found that starts a match is the first match. */
  lemma ActiveFoundFirst(text: string, from: nat, i: nat)
    requires FindFrom(text, ActiveLabel, from) == Some(i) && ActiveMatchAt(text, i)
    ensures FirstActiveMatch(text, from, i)
  {
  }

  /** No match from `from` to `i`, and a first match after `i`: it is the first from `from` on. */
  lemma ActiveFirstShift(text: string, from: nat, i: nat, k: nat)
    requires from <= i
    requires forall j: nat :: from <= j <= i ==> !ActiveMatchAt(text, j)
    requires FirstActiveMatch(text, i + 1, k)
    ensures FirstActiveMatch(text, from, k)
  {
  }

  /** There is no capture exactly when no position from `from` on starts a match. */
  lemma {:induction false} ActiveCaptureNone(text: string, from: nat)
    ensures ActiveCaptureFrom(text, from).None? <==> forall i: nat :: from <= i ==> !ActiveMatchAt(text, i)
    decreases |text| - from
  {
    match FindFrom(text, ActiveLabel, from)
    case None =>
      assert forall i: nat :: from <= i ==> !OccursAt(text, ActiveLabel, i);
    case Some(i) =>
      if ActiveMatchAt(text, i) {
        ActiveCaptureHit(text, from, i);
      } else {
        ActiveCaptureSkip(text, from, i);
        ActiveCaptureNone(text, i + 1);
      }
  }

  /** A label found that starts a match: the capture is the run after it. */
  lemma ActiveCaptureHit(text: string, from: nat, i: nat)
    requires FindFrom(text, ActiveLabel, from) == Some(i) && ActiveMatchAt(text, i)
    ensures ActiveCaptureFrom(text, from) == Some(RunWithout(text[i + |ActiveLabel|..], '|'))
  {
  }

  /** A label found that is followed by `|` or the end: the search resumes one position later. */
  lemma ActiveCaptureSkip(text: string, from: nat, i: nat)
    requires FindFrom(text, ActiveLabel, from) == Some(i) && !ActiveMatchAt(text, i)
    ensures ActiveCaptureFrom(text, from) == ActiveCaptureFrom(text, i + 1)
    ensures forall j: nat :: from <= j <= i ==> !ActiveMatchAt(text, j)
  {
    var start := i + |ActiveLabel|;
    assert !(start < |text| && text[start] != '|');
  }

  /**
   * The active principle from the `og:description` text: the regex group,
   * stripped, cut at the first `/`, and stripped again; `None` without a match.
   */
  function SalcobrandActivePrinciple(description: string): (v: Value)
    ensures v.Str? ==> '|' !in v.s && '/' !in v.s
    ensures v.Str? ==> v.s == [] || (!IsSpace(v.s[0]) && !IsSpace(v.s[|v.s| - 1]))
    ensures v.Null? <==> forall i: nat :: !ActiveMatchAt(description, i)
  {
    ActiveCaptureNone(description, 0);
    match ActiveCaptureFrom(description, 0)
    case None => Null
    case Some(g) =>
      FirstPieceChars(Strip(g), '/');
      Str(Strip(Split(Strip(g), "/")[0]))
  }

  /** The first `/` piece of a stripped text, stripped again, is the stripped text before the `/`. */
  lemma StripFirstSlashPiece(a: string, b: string)
    requires '/' !in a
    ensures Strip(Split(Strip(a + ("/" + b)), "/")[0]) == Strip(a)
  {
    var la := LStripWhile(a, IsSpace);
    StripAroundKept(a, '/', b);
    FirstPieceBefore(la, '/', RStripWhile(b, IsSpace));
    assert LStripWhile(la, IsSpace) == la;
  }

  /** Splitting on a character cuts at its first occurrence. */
  lemma FirstPieceBefore(x: string, c: char, y: string)
    requires c !in x
    ensures Split(x + ([c] + y), [c])[0] == x
  {
    assert x + ([c] + y) == x + [c] + y;
    NoEarlyChar(x, c, y);
    SplitAtFirst(x, [c], y);
  }

  /**
   * A description `pre + "Principio Activo: " + a + "/" + b + "|" + rest`,
   * with no match starting inside `pre`, yields `a` stripped: the group ends
   * at the `|` and is cut at its first `/`.
   */
  lemma SalcobrandActivePrincipleOf(pre: string, a: string, b: string, rest: string)
    requires forall j: nat :: j < |pre| ==> !ActiveMatchAt(pre + ActiveLabel + a + "/" + b + "|" + rest, j)
    requires '|' !in a && '|' !in b && '/' !in a
    ensures SalcobrandActivePrinciple(pre + ActiveLabel + a + "/" + b + "|" + rest) == Str(Strip(a))
  {
    var text := pre + ActiveLabel + a + "/" + b + "|" + rest;
    var g := a + ("/" + b);
    var start := |pre| + |ActiveLabel|;
    assert text == pre + ActiveLabel + (g + "|" + rest);
    assert text[|pre|..start] == ActiveLabel;
    assert text[start..] == g + "|" + rest;
    assert text[start] == g[0] != '|';
    assert ActiveMatchAt(text, |pre|);
    ActiveCaptureFirst(text, |pre|);
    assert '|' !in g;
    RunWithoutStops(g, '|', rest);
    assert ActiveCaptureFrom(text, 0) == Some(g);
    StripFirstSlashPiece(a, b);
  }

  /** When the first match starts at `m`, the capture is the run after the label found there. */
  lemma ActiveCaptureFirst(text: string, m: nat)
    requires FirstActiveMatch(text, 0, m)
    ensures ActiveCaptureFrom(text, 0) == Some(RunWithout(text[m + |ActiveLabel|..], '|'))
  {
    ActiveCaptureNone(text, 0);
    assert ActiveCaptureFrom(text, 0).Some?;
    ActiveCaptureLeftmost(text, 0);
    var i: nat :| FirstActiveMatch(text, 0, i)
      && ActiveCaptureFrom(text, 0).value == RunWithout(text[i + |ActiveLabel|..], '|');
    assert !(i < m) && !(m < i);
  }

  function SalcobrandSku(skuSpan: Option<string>): Result<Value, Error> {
    match skuSpan
    case None => Success(Null)
    case Some(t) =>
      match SplitPiece(t, "\n", 2)
      case None => Failure(IndexOutOfRange("sku_match.text.split('\\n')[2]"))
      case Some(line) => Success(Str(Strip(line)))
  }

  function SalcobrandLab(p: SalcobrandPage): Result<Value, Error> {
    if !p.hasDescriptionArea then Failure(ElementNotFound("div.description-area"))
    else match p.labHeading
      case None => Success(Null)
      case Some(h) =>
        match h.nextP
        case Some(t) => Success(Str(Strip(t)))
        case None =>
          var t :- Found(h.nextDiv, "h4 + div");
          Success(Str(Strip(t)))
  }

  /** The page once the tracker script has been found. */
  function SalcobrandParse(p: SalcobrandPage, t: SalcobrandTracker): (r: Result<Scraped, Error>)
    ensures r.Success? <==>
      p.ogDescription.Some? && SalcobrandSku(p.skuSpan).Success? && SalcobrandLab(p).Success? && t.price.Str?
    ensures r.Success? ==> r.value.activePrinciple == Some(SalcobrandActivePrinciple(p.ogDescription.value))
    ensures r.Success? ==> r.value.price == Some(Str("$" + t.price.s))
    ensures r.Success? ==> r.value.isAvailable == Some(t.isAvailable) && r.value.bioequivalent == Some(t.bioequivalent)
  {
      var description :- (match p.ogDescription
                          case Some(d) => Success(d)
                          case None => Failure(TypeMismatch("None['content']")));
      var sku :- SalcobrandSku(p.skuSpan);
      var lab :- SalcobrandLab(p);
      var price :- Dollar(t.price);
      Success(Scraped(
        price := Some(price),
        labName := Some(lab),
        bioequivalent := Some(t.bioequivalent),
        isAvailable := Some(t.isAvailable),
        activePrinciple := Some(SalcobrandActivePrinciple(description)),
        sku := Some(sku),
        webName := Some(t.name)))
  }

  function SalcobrandAdapter(resp: Response<SalcobrandPage>, data: Record): (r: Result<Record, Error>)
    ensures resp.status != 200 ==> r == Failure(HttpStatus(resp.status))
    ensures Honours(Salcobrand, data, r)
    ensures r.Success? ==> resp.page.tracker.Some? && resp.page.ogDescription.Some?
    ensures r.Success? ==> r.value.activePrinciple == Some(SalcobrandActivePrinciple(resp.page.ogDescription.value))
    ensures r.Success? ==> r.value.isAvailable == Some(resp.page.tracker.value.isAvailable)
  {
    HandleHttpRequest(resp.status, resp.page, (p: SalcobrandPage) =>
      match p.tracker
      case None => Validate(SalcobrandRequired, EmptyRecord)   // `return {}`
      case Some(t) => Finish(Salcobrand, data, SalcobrandParse(p, t)))
  }

  /** A page without the tracker script yields `{}`, which fails the check on its first key. */
  lemma SalcobrandWithoutTracker(p: SalcobrandPage, data: Record)
    requires p.tracker.None?
    ensures SalcobrandAdapter(Response(200, p), data) == Failure(MissingRequired(PriceKey))
  {
  }

  /** The Salcobrand price is the tracker's price text behind a dollar sign. */
  lemma SalcobrandPriceHasDollar(p: SalcobrandPage, data: Record)
    requires SalcobrandAdapter(Response(200, p), data).Success?
    ensures p.tracker.Some? && p.tracker.value.price.Str?
    ensures SalcobrandAdapter(Response(200, p), data).value.price == Some(Str("$" + p.tracker.value.price.s))
  {
  }

  // ---------------------------------------------------------------------
  // buhochile (pharmacy.py lines 157-202)
  // ---------------------------------------------------------------------

  /** The `props.pageProps.product` object of the `__NEXT_DATA__` script. */
  datatype BuhoProduct = BuhoProduct(
    name: Value, tablets: Value, pharmaceuticForm: Value, activePrinciple: Value,
    minPrice: Value, bioequivalent: Value, laboratoryName: Value)

  datatype BuhochilePage = BuhochilePage(product: BuhoProduct, availability: Option<string>)

  function BuhochileParse(p: BuhochilePage): (r: Result<Scraped, Error>)
    ensures r.Success? <==> p.availability.Some?
    ensures r.Success? ==> r.value.isAvailable == Some(Bool(p.availability.value == "in stock"))
    ensures r.Success? ==> r.value.price == Some(Str("$" + ValueText(p.product.minPrice)))
    ensures r.Success? ==> r.value.bioequivalent == Some(p.product.bioequivalent)
  {
    var pr := p.product;
    var availability :- (match p.availability
                         case Some(c) => Success(c)
                         case None => Failure(TypeMismatch("None['content']")));
    Success(Scraped(
      price := Some(Str("$" + ValueText(pr.minPrice))),
      labName := Some(pr.laboratoryName),
      bioequivalent := Some(pr.bioequivalent),
      isAvailable := Some(Bool(availability == "in stock")),
      activePrinciple := Some(pr.activePrinciple),
      webName := Some(Str(ValueText(pr.name) + " " + ValueText(pr.tablets) + " " + ValueText(pr.pharmaceuticForm)))))
  }

  function BuhochileAdapter(resp: Response<BuhochilePage>, data: Record): (r: Result<Record, Error>)
    ensures resp.status != 200 ==> r == Failure(HttpStatus(resp.status))
    ensures Honours(Buhochile, data, r)
    ensures r.Success? ==>
      && resp.page.availability.Some?
      && r.value.isAvailable == Some(Bool(resp.page.availability.value == "in stock"))
  {
    HandleHttpRequest(resp.status, resp.page, (p: BuhochilePage) => Finish(Buhochile, data, BuhochileParse(p)))
  }

  // ---------------------------------------------------------------------
  // elquimico (pharmacy.py lines 204-267)
  // ---------------------------------------------------------------------

  datatype ElQuimicoPage = ElQuimicoPage(
    navigated: bool,              // driver.get(url) did not raise
    subtotal: Option<string>,     // span.money-subtotal within the 10-second wait
    stockSpan: Option<string>,    // the info span reading 'En stock' or 'Agotado'
    title: Option<string>,        // h1.productView-title
    infoValues: seq<string>,      // every span.productView-info-value
    strongText: Option<string>,   // div.tab-popup-content strong
    vendorValue: Option<string>)  // div.productView-info-item span.productView-info-value

  function ElQuimicoParse(p: ElQuimicoPage): (r: Result<Scraped, Error>)
    ensures !p.navigated ==> r == Failure(SessionFailed("driver.get"))
    ensures r.Success? <==>
      && p.navigated && p.subtotal.Some? && p.stockSpan.Some?
      && |p.infoValues| > 1 && p.strongText.Some? && p.vendorValue.Some?
    ensures r.Success? ==> r.value.isAvailable == Some(Bool(Strip(p.stockSpan.value) == "En stock"))
    ensures r.Success? ==> r.value.sku == Some(Str(Strip(p.infoValues[1])))
    ensures r.Success? && p.title.None? ==> r.value.webName == Some(Str("Name product not found"))
  {
    if !p.navigated then Failure(SessionFailed("driver.get"))
    else
      var price :- (match p.subtotal
                    case Some(t) => Success(t)
                    case None => Failure(SessionFailed("wait for span.money-subtotal")));
      var stock :- Found(p.stockSpan, "stock span");
      var name := match p.title
                  case Some(t) => Strip(t)
                  case None => "Name product not found";
      var sku :- (if |p.infoValues| > 1 then Success(Strip(p.infoValues[1]))
                  else Failure(IndexOutOfRange("sku_elem[1]")));
      var active :- Found(p.strongText, "div.tab-popup-content strong");
      var lab :- Found(p.vendorValue, "vendor span");
      Success(Scraped(
        price := Some(Str(price)),
        labName := Some(Str(Strip(lab))),
        isAvailable := Some(Bool(Strip(stock) == "En stock")),
        activePrinciple := Some(Str(active)),
        sku := Some(Str(sku)),
        webName := Some(Str(name))))
  }

  /** validate_data outside handle_http_request outside initialize_driver. */
  function ElQuimicoAdapter(resp: Response<ElQuimicoPage>, data: Record): (r: Result<Record, Error>)
    ensures resp.status != 200 ==> r == Failure(HttpStatus(resp.status))
    ensures Honours(ElQuimico, data, r)
    ensures r.Success? ==>
      && resp.page.stockSpan.Some?
      && r.value.isAvailable == Some(Bool(Strip(resp.page.stockSpan.value) == "En stock"))
    ensures r.Success? && resp.page.title.None? ==> r.value.webName == Some(Str("Name product not found"))
  {
    Finish(ElQuimico, data, HandleHttpRequest(resp.status, resp.page, ElQuimicoParse))
  }

  // ---------------------------------------------------------------------
  // ahumada (pharmacy.py lines 269-312)
  // ---------------------------------------------------------------------

  datatype AhumadaPage = AhumadaPage(
    principleCell: Option<string>, labCell: Option<string>, productName: Option<string>,
    priceValue: Option<string>, cartButton: Option<string>)

  function AhumadaParse(p: AhumadaPage): (r: Result<Scraped, Error>)
    ensures r.Success? <==>
      && p.principleCell.Some? && p.labCell.Some? && p.productName.Some?
      && p.priceValue.Some? && p.cartButton.Some?
    ensures r.Success? ==> r.value.isAvailable == Some(Bool(Contains(p.cartButton.value, "Agregar al carrito")))
    ensures r.Success? ==> r.value.price == Some(Str(Strip(p.priceValue.value)))
  {
    var active :- Found(p.principleCell, "Principio Activo td");
    var lab :- Found(p.labCell, "Laboratorio td");
    var name :- Found(p.productName, "h1.product-name");
    var price :- Found(p.priceValue, "span.value");
    var button :- Found(p.cartButton, "button.add-to-cart");
    Success(Scraped(
      price := Some(Str(Strip(price))),
      labName := Some(Str(Strip(lab))),
      isAvailable := Some(Bool(Contains(button, "Agregar al carrito"))),
      activePrinciple := Some(Str(Strip(active))),
      webName := Some(Str(Strip(name)))))
  }

  function AhumadaAdapter(resp: Response<AhumadaPage>, data: Record): (r: Result<Record, Error>)
    ensures resp.status != 200 ==> r == Failure(HttpStatus(resp.status))
    ensures Honours(Ahumada, data, r)
    ensures r.Success? ==>
      && resp.page.cartButton.Some?
      && r.value.isAvailable == Some(Bool(Contains(resp.page.cartButton.value, "Agregar al carrito")))
  {
    HandleHttpRequest(resp.status, resp.page, (p: AhumadaPage) => Finish(Ahumada, data, AhumadaParse(p)))
  }

  // ---------------------------------------------------------------------
  // ecofarmacias (pharmacy.py lines 314-370)
  // ---------------------------------------------------------------------

  datatype EcoPage = EcoPage(
    bdi: Option<string>,             // price
    stockParagraph: Option<string>,  // p with a class matching 'stock'
    cartButton: Option<string>,      // button.single_add_to_cart_button
    skuSpan: Option<string>,
    principlesItem: Option<string>,  // li containing 'Principios Activos:'
    title: Option<string>)           // h1.product_title

  /**
   * The stock paragraph decides when present (anything but 'Sin existencias');
   * otherwise the cart button decides ('Añadir al carrito' in its text);
   * otherwise not available.
   */
  function EcoAvailable(stockParagraph: Option<string>, cartButton: Option<string>): (b: bool)
    ensures stockParagraph.Some? ==> (b <==> Strip(stockParagraph.value) != "Sin existencias")
    ensures stockParagraph.None? && cartButton.Some? ==> (b <==> Contains(Strip(cartButton.value), "Añadir al carrito"))
    ensures stockParagraph.None? && cartButton.None? ==> !b
  {
    match stockParagraph
    case Some(t) => Strip(t) != "Sin existencias"
    case None =>
      match cartButton
      case Some(t) => Contains(Strip(t), "Añadir al carrito")
      case None => false
  }

  /** The web name: the title before its first `(`, stripped. */
  function EcoName(title: string): (name: string)
    ensures '(' !in name
    ensures '(' !in title ==> name == Strip(title)
  {
    FirstPieceChars(title, '(');
    SplitSingleIffAbsent(title, "(");
    ContainsChar(title, '(');
    Strip(Split(title, "(")[0])
  }

  /** A title `a(b...)` names the product `a`, stripped. */
  lemma EcoNameBeforeParen(a: string, b: string)
    requires '(' !in a
    ensures EcoName(a + ("(" + b)) == Strip(a)
  {
    FirstPieceBefore(a, '(', b);
  }

  /** Price, SKU and title must be on the page, and a principles item must have a `': '`. */
  function EcoParse(p: EcoPage): (r: Result<Scraped, Error>)
    ensures r.Success? <==>
      && p.bdi.Some? && p.skuSpan.Some? && p.title.Some?
      && (p.principlesItem.Some? ==> SplitPiece(p.principlesItem.value, ": ", 1).Some?)
    ensures r.Success? ==> r.value.isAvailable == Some(Bool(EcoAvailable(p.stockParagraph, p.cartButton)))
    ensures r.Success? ==> r.value.webName == Some(Str(EcoName(p.title.value)))
    ensures r.Success? ==> r.value.price == Some(Str(p.bdi.value))
  {
    var price :- Found(p.bdi, "bdi");
    var sku :- Found(p.skuSpan, "span.sku");
    var active :- (match p.principlesItem
                   case None => Success(Null)
                   case Some(t) =>
                     match SplitPiece(t, ": ", 1)
                     case None => Failure(IndexOutOfRange("split(': ')[1]"))
                     case Some(a) => Success(Str(a)));
    var title :- Found(p.title, "h1.product_title");
    Success(Scraped(
      price := Some(Str(price)),
      isAvailable := Some(Bool(EcoAvailable(p.stockParagraph, p.cartButton))),
      activePrinciple := Some(active),
      sku := Some(Str(Strip(sku))),
      webName := Some(Str(EcoName(title)))))
  }

  function EcoFarmaciasAdapter(resp: Response<EcoPage>, data: Record): (r: Result<Record, Error>)
    ensures resp.status != 200 ==> r == Failure(HttpStatus(resp.status))
    ensures Honours(EcoFarmacias, data, r)
    ensures r.Success? ==> r.value.isAvailable == Some(Bool(EcoAvailable(resp.page.stockParagraph, resp.page.cartButton)))
    ensures r.Success? ==> resp.page.title.Some? && r.value.webName == Some(Str(EcoName(resp.page.title.value)))
  {
    HandleHttpRequest(resp.status, resp.page, (p: EcoPage) => Finish(EcoFarmacias, data, EcoParse(p)))
  }

  /**
   * A stock paragraph reading 'Sin existencias', whatever whitespace
   * surrounds it, makes a stored record unavailable whatever the cart button
   * says.
   */
  lemma EcoSoldOutParagraph(resp: Response<EcoPage>, data: Record, pre: string, post: string)
    requires forall k :: 0 <= k < |pre| ==> IsSpace(pre[k])
    requires forall k :: 0 <= k < |post| ==> IsSpace(post[k])
    requires resp.page.stockParagraph == Some(pre + ("Sin existencias" + post))
    requires EcoFarmaciasAdapter(resp, data).Success?
    ensures EcoFarmaciasAdapter(resp, data).value.isAvailable == Some(Bool(false))
  {
    StripPadded(pre, "Sin existencias", post);
  }

  // ---------------------------------------------------------------------
  // drsimi (pharmacy.py lines 372-444)
  // ---------------------------------------------------------------------

  /** The pieces inside span.sellingPriceValue. */
  datatype DrSimiPrice = DrSimiPrice(currencyCode: Option<string>, integers: seq<string>, group: Option<string>)

  datatype DrSimiPage = DrSimiPage(
    sellingPrice: Option<DrSimiPrice>,
    skuValue: Option<string>,
    brand: Option<string>,
    bioequivalentText: Option<string>,
    principleCell: Option<string>,
    hasCartButton: bool)

  /** Currency code, first integer part, group separator, second integer part. */
  function DrSimiPriceText(p: Option<DrSimiPrice>): (r: Result<string, Error>)
    ensures r.Success? <==> p.Some? && p.value.currencyCode.Some? && p.value.group.Some? && |p.value.integers| >= 2
    ensures r.Success? ==> r.value == p.value.currencyCode.value + p.value.integers[0] + p.value.group.value + p.value.integers[1]
  {
    match p
    case None => Failure(ElementNotFound("span.sellingPriceValue"))
    case Some(sp) =>
      var code :- Found(sp.currencyCode, "span.currencyCode");
      var group :- Found(sp.group, "span.currencyGroup");
      if |sp.integers| < 2 then Failure(IndexOutOfRange("currency_integer[1]"))
      else Success(code + sp.integers[0] + group + sp.integers[1])
  }

  /** Bioequivalent when the element exists and mentions "es bioequivalente". */
  function DrSimiBioequivalent(text: Option<string>): (b: bool)
    ensures b <==> text.Some? && Contains(text.value, "es bioequivalente")
  {
    match text
    case Some(t) => Contains(t, "es bioequivalente")
    case None => false
  }

  /** The price parts, SKU and brand must be on the page; the rest defaults when missing. */
  function DrSimiParse(p: DrSimiPage): (r: Result<Scraped, Error>)
    ensures r.Success? <==> DrSimiPriceText(p.sellingPrice).Success? && p.skuValue.Some? && p.brand.Some?
    ensures r.Success? ==> r.value.price == Some(Str(DrSimiPriceText(p.sellingPrice).value))
    ensures r.Success? ==> r.value.bioequivalent == Some(Bool(DrSimiBioequivalent(p.bioequivalentText)))
    ensures r.Success? ==> r.value.isAvailable == Some(Bool(p.hasCartButton))
    ensures r.Success? ==> r.value.sku == Some(Str(Strip(p.skuValue.value)))
    ensures r.Success? ==> r.value.webName == Some(Str(Strip(p.brand.value)))
  {
    var price :- DrSimiPriceText(p.sellingPrice);
    var sku :- Found(p.skuValue, "product identifier");
    var name :- Found(p.brand, "productBrand");
    Success(Scraped(
      price := Some(Str(price)),
      bioequivalent := Some(Bool(DrSimiBioequivalent(p.bioequivalentText))),
      isAvailable := Some(Bool(p.hasCartButton)),
      activePrinciple := Some(StrippedOrNull(p.principleCell)),
      sku := Some(Str(Strip(sku))),
      webName := Some(Str(Strip(name)))))
  }

  function DrSimiAdapter(resp: Response<DrSimiPage>, data: Record): (r: Result<Record, Error>)
    ensures resp.status != 200 ==> r == Failure(HttpStatus(resp.status))
    ensures Honours(DrSimi, data, r)
    ensures r.Success? ==> DrSimiPriceText(resp.page.sellingPrice).Success?
    ensures r.Success? ==> r.value.price == Some(Str(DrSimiPriceText(resp.page.sellingPrice).value))
    ensures r.Success? ==> r.value.bioequivalent == Some(Bool(DrSimiBioequivalent(resp.page.bioequivalentText)))
    ensures r.Success? ==> r.value.isAvailable == Some(Bool(resp.page.hasCartButton))
  {
    HandleHttpRequest(resp.status, resp.page, (p: DrSimiPage) => Finish(DrSimi, data, DrSimiParse(p)))
  }

  /**
   * A page without the bioequivalence paragraph still passes the check,
   * which requires `bioequivalent`: `False` is not `None`.
   */
  lemma DrSimiWithoutBioequivalenceText(p: DrSimiPage, data: Record)
    requires DrSimiPriceText(p.sellingPrice).Success? && p.skuValue.Some? && p.brand.Some?
    requires p.bioequivalentText.None?
    ensures DrSimiAdapter(Response(200, p), data).Success?
    ensures DrSimiAdapter(Response(200, p), data).value.bioequivalent == Some(Bool(false))
  {
    var f := DrSimiParse(p).value;
    assert DrSimiAdapter(Response(200, p), data) == Finish(DrSimi, data, Success(f));
    DrSimiWritesRequired(f);
    FinishAllWritten(DrSimi, data, f);
  }

  /** Values written under price, bioequivalent, isAvailable, sku and webName cover every key the site requires. */
  lemma DrSimiWritesRequired(f: Scraped)
    requires f.price.Some? && f.price.value != Null && f.bioequivalent.Some? && f.bioequivalent.value != Null
    requires f.isAvailable.Some? && f.isAvailable.value != Null
    requires f.sku.Some? && f.sku.value != Null && f.webName.Some? && f.webName.value != Null
    ensures RequiredKeys(DrSimi) == Some(DrSimiRequired)
    ensures forall k :: k in RequiredKeys(DrSimi).value ==> f.Get(k).Some? && f.Get(k).value != Null
  {
    forall k | k in DrSimiRequired
      ensures f.Get(k).Some? && f.Get(k).value != Null
    {
      assert k == PriceKey || k == BioequivalentKey || k == IsAvailableKey || k == SkuKey || k == WebNameKey;
    }
  }

  // ---------------------------------------------------------------------
  // novasalud (pharmacy.py lines 446-493)
  // ---------------------------------------------------------------------

  datatype NovaSaludPage = NovaSaludPage(
    name: Option<string>, sku: Option<string>, price: Option<string>,
    stockSpan: Option<string>, principleCell: Option<string>, labCell: Option<string>)

  function NovaSaludParse(p: NovaSaludPage): (r: Result<Scraped, Error>)
    ensures r.Success? <==>
      && p.name.Some? && p.sku.Some? && p.price.Some?
      && p.stockSpan.Some? && p.principleCell.Some? && p.labCell.Some?
    ensures r.Success? ==> r.value.isAvailable == Some(Bool(Strip(p.stockSpan.value) == "En stock"))
    ensures r.Success? ==> r.value.price == Some(Str(Strip(p.price.value)))
  {
    var name :- Found(p.name, "span.base");
    var sku :- Found(p.sku, "div.value[itemprop=sku]");
    var price :- Found(p.price, "span.price");
    var stock :- Found(p.stockSpan, "div.stock.available span");
    var active :- Found(p.principleCell, "Principio Activo (DCI) td");
    var lab :- Found(p.labCell, "Laboratorio td");
    Success(Scraped(
      price := Some(Str(Strip(price))),
      labName := Some(Str(Strip(lab))),
      isAvailable := Some(Bool(Strip(stock) == "En stock")),
      activePrinciple := Some(Str(Strip(active))),
      sku := Some(Str(Strip(sku))),
      webName := Some(Str(Strip(name)))))
  }

  function NovaSaludAdapter(resp: Response<NovaSaludPage>, data: Record): (r: Result<Record, Error>)
    ensures resp.status != 200 ==> r == Failure(HttpStatus(resp.status))
    ensures Honours(NovaSalud, data, r)
    ensures r.Success? ==>
      && resp.page.stockSpan.Some?
      && r.value.isAvailable == Some(Bool(Strip(resp.page.stockSpan.value) == "En stock"))
  {
    HandleHttpRequest(resp.status, resp.page, (p: NovaSaludPage) => Finish(NovaSalud, data, NovaSaludParse(p)))
  }

  // ---------------------------------------------------------------------
  // mercadofarma (pharmacy.py lines 495-534)
  // ---------------------------------------------------------------------

  datatype MercadoFarmaPage = MercadoFarmaPage(
    title: Option<string>, vendor: Option<string>,
    priceContents: Option<seq<string>>,  // the children of span.price
    inventory: Option<string>)           // span.product-form__inventory

  /** Available when the stock text says 'quedan' and has no `0` character anywhere. */
  function MercadoFarmaAvailable(stockText: string): (b: bool)
    ensures b <==> Contains(Strip(stockText), "quedan") && '0' !in Strip(stockText)
  {
    ContainsChar(Strip(stockText), '0');
    var s := Strip(stockText);
    Contains(s, "quedan") && !Contains(s, "0")
  }

  /** `price_span.contents[-1]` */
  function LastChild(contents: Option<seq<string>>): (r: Result<string, Error>)
    ensures r.Success? <==> contents.Some? && contents.value != []
    ensures r.Success? ==> r.value == contents.value[|contents.value| - 1]
  {
    match contents
    case None => Failure(ElementNotFound("span.price"))
    case Some(cs) => if cs == [] then Failure(IndexOutOfRange("contents[-1]")) else Success(cs[|cs| - 1])
  }

  function MercadoFarmaParse(p: MercadoFarmaPage): (r: Result<Scraped, Error>)
    ensures r.Success? <==>
      && p.title.Some? && p.vendor.Some? && p.inventory.Some?
      && p.priceContents.Some? && p.priceContents.value != []
    ensures r.Success? ==> r.value.price == Some(Str(Strip(p.priceContents.value[|p.priceContents.value| - 1])))
    ensures r.Success? ==> r.value.isAvailable == Some(Bool(MercadoFarmaAvailable(p.inventory.value)))
    ensures r.Success? ==> r.value.labName == Some(Str(Strip(p.vendor.value)))
    ensures r.Success? ==> r.value.webName == Some(Str(Strip(p.title.value)))
  {
    var name :- Found(p.title, "h1.product-meta__title");
    var lab :- Found(p.vendor, "a.product-meta__vendor");
    var last :- LastChild(p.priceContents);
    var stock :- Found(p.inventory, "span.product-form__inventory");
    Success(Scraped(
      price := Some(Str(Strip(last))),
      labName := Some(Str(Strip(lab))),
      isAvailable := Some(Bool(MercadoFarmaAvailable(stock))),
      webName := Some(Str(Strip(name)))))
  }

  function MercadoFarmaAdapter(resp: Response<MercadoFarmaPage>, data: Record): (r: Result<Record, Error>)
    ensures resp.status != 200 ==> r == Failure(HttpStatus(resp.status))
    ensures Honours(MercadoFarma, data, r)
    ensures r.Success? ==>
      && resp.page.inventory.Some?
      && r.value.isAvailable == Some(Bool(MercadoFarmaAvailable(resp.page.inventory.value)))
    ensures r.Success? ==>
      && resp.page.priceContents.Some? && resp.page.priceContents.value != []
      && r.value.price == Some(Str(Strip(resp.page.priceContents.value[|resp.page.priceContents.value| - 1])))
  {
    HandleHttpRequest(resp.status, resp.page, (p: MercadoFarmaPage) => Finish(MercadoFarma, data, MercadoFarmaParse(p)))
  }

  /** A page whose inventory reads `quedan n` is stored as available exactly when n is positive and its numeral has no zero. */
  lemma MercadoFarmaStoredStock(resp: Response<MercadoFarmaPage>, data: Record, n: nat)
    requires resp.page.inventory == Some("quedan " + NatToString(n))
    requires MercadoFarmaAdapter(resp, data).Success?
    ensures MercadoFarmaAdapter(resp, data).value.isAvailable == Some(Bool(n > 0 && '0' !in NatToString(n)))
  {
    MercadoFarmaCount(n);
  }

  /** After 'quedan ', a count text without trailing whitespace decides by its `0` characters alone. */
  lemma QuedanLine(t: string)
    requires t != [] && !IsSpace(t[|t| - 1])
    ensures MercadoFarmaAvailable("quedan " + t) <==> '0' !in t
  {
    var s := "quedan " + t;
    assert !IsSpace(s[0]) && !IsSpace(s[|s| - 1]);
    assert Strip(s) == s;
    assert s[0..6] == "quedan";
    assert OccursAt(s, "quedan", 0);
    assert '0' in s <==> '0' in t;
  }

  /** "quedan n" counts as available only when n is positive and its numeral has no zero digit. */
  lemma MercadoFarmaCount(n: nat)
    ensures MercadoFarmaAvailable("quedan " + NatToString(n)) <==> n > 0 && '0' !in NatToString(n)
  {
    var t := NatToString(n);
    assert IsDigit(t[|t| - 1]);
    QuedanLine(t);
    if n == 0 {
      assert t == "0";
    }
  }

  /** So "quedan 10" is reported as out of stock. */
  lemma MercadoFarmaTenIsUnavailable()
    ensures !MercadoFarmaAvailable("quedan 10")
  {
    var s := "quedan 10";
    assert !IsSpace(s[0]) && !IsSpace(s[|s| - 1]);
    assert Strip(s) == s;
    assert s[8] == '0';
  }

  // ---------------------------------------------------------------------
  // meki (pharmacy.py lines 536-583)
  // ---------------------------------------------------------------------

  /** The `props.pageProps.initialProduct` object of the `__NEXT_DATA__` script. */
  datatype MekiProduct = MekiProduct(isBioequivalent: Value, activePrinciple: Value, laboratory: Value, name: Value, price: Value)

  datatype MekiPage = MekiPage(product: MekiProduct, deliveryParagraphs: seq<string>)

  /** A delivery paragraph promising 'Recibe' ... 'mañana' means the product is available. */
  predicate PromisesDelivery(text: string) {
    Contains(text, "Recibe") && Contains(text, "mañana")
  }

  predicate MekiAvailable(paragraphs: seq<string>) {
    exists i :: 0 <= i < |paragraphs| && PromisesDelivery(paragraphs[i])
  }

  /** The loop over the delivery paragraphs, stopping at the first promise of delivery. */
  method MekiScan(paragraphs: seq<string>) returns (available: bool)
    ensures available <==> MekiAvailable(paragraphs)
  {
    available := false;
    var i := 0;
    while i < |paragraphs|
      invariant 0 <= i <= |paragraphs|
      invariant !available
      invariant forall j :: 0 <= j < i ==> !PromisesDelivery(paragraphs[j])
    {
      if PromisesDelivery(paragraphs[i]) {
        available := true;
        break;
      }
      i := i + 1;
    }
  }

  function MekiParse(p: MekiPage): (r: Result<Scraped, Error>)
    ensures r.Success?
    ensures r.value.isAvailable == Some(Bool(MekiAvailable(p.deliveryParagraphs)))
    ensures r.value.price == Some(p.product.price) && r.value.labName == Some(p.product.laboratory)
    ensures r.value.bioequivalent == Some(p.product.isBioequivalent)
    ensures r.value.activePrinciple == Some(p.product.activePrinciple) && r.value.webName == Some(p.product.name)
  {
    var pr := p.product;
    Success(Scraped(
      price := Some(pr.price),
      labName := Some(pr.laboratory),
      bioequivalent := Some(pr.isBioequivalent),
      isAvailable := Some(Bool(MekiAvailable(p.deliveryParagraphs))),
      activePrinciple := Some(pr.activePrinciple),
      webName := Some(pr.name)))
  }

  function MekiAdapter(resp: Response<MekiPage>, data: Record): (r: Result<Record, Error>)
    ensures resp.status != 200 ==> r == Failure(HttpStatus(resp.status))
    ensures Honours(Meki, data, r)
    ensures resp.status == 200 ==>
      (r.Success? <==>
        && resp.page.product.price != Null && resp.page.product.laboratory != Null
        && resp.page.product.isBioequivalent != Null && resp.page.product.activePrinciple != Null
        && resp.page.product.name != Null)
    ensures r.Success? ==> r.value.isAvailable == Some(Bool(MekiAvailable(resp.page.deliveryParagraphs)))
  {
    MekiRequiredValues(resp.page, data);
    HandleHttpRequest(resp.status, resp.page, (p: MekiPage) => Finish(Meki, data, MekiParse(p)))
  }

  /** The required-field check passes exactly when none of the five product values read from the JSON is `null`. */
  lemma MekiRequiredValues(p: MekiPage, data: Record)
    ensures Finish(Meki, data, MekiParse(p)).Success? <==>
      && p.product.price != Null && p.product.laboratory != Null
      && p.product.isBioequivalent != Null && p.product.activePrinciple != Null
      && p.product.name != Null
  {
    var f := MekiParse(p).value;
    assert MekiParse(p) == Success(f);
    FinishValidates(Meki, data, f);
    MekiApplied(p, data);
    MekiValidate(Apply(data, f));
  }

  /** After the merge, the required keys hold the values read from the page. */
  lemma MekiApplied(p: MekiPage, data: Record)
    ensures var d := Apply(data, MekiParse(p).value);
      && d.Get(PriceKey) == Some(p.product.price)
      && d.Get(LabNameKey) == Some(p.product.laboratory)
      && d.Get(BioequivalentKey) == Some(p.product.isBioequivalent)
      && d.Get(IsAvailableKey) == Some(Bool(MekiAvailable(p.deliveryParagraphs)))
      && d.Get(ActivePrincipleKey) == Some(p.product.activePrinciple)
      && d.Get(WebNameKey) == Some(p.product.name)
  {
    var f := MekiParse(p).value;
    assert f.price.Some? && f.labName.Some? && f.bioequivalent.Some?;
    assert f.isAvailable.Some? && f.activePrinciple.Some? && f.webName.Some?;
  }

  /** The check over the keys the site requires passes exactly when each of them holds a non-`None` value. */
  lemma MekiValidate(d: Record)
    requires d.Get(PriceKey).Some? && d.Get(LabNameKey).Some? && d.Get(BioequivalentKey).Some?
    requires d.Get(IsAvailableKey).Some? && d.Get(ActivePrincipleKey).Some? && d.Get(WebNameKey).Some?
    ensures Validate(MekiRequired, d).Success? <==>
      && d.Get(PriceKey).value != Null && d.Get(LabNameKey).value != Null
      && d.Get(BioequivalentKey).value != Null && d.Get(IsAvailableKey).value != Null
      && d.Get(ActivePrincipleKey).value != Null && d.Get(WebNameKey).value != Null
  {
    assert MekiRequired == [PriceKey, LabNameKey, BioequivalentKey, IsAvailableKey, ActivePrincipleKey, WebNameKey];
  }

  // ---------------------------------------------------------------------
  // cruzverde (pharmacy.py lines 585-669)
  // ---------------------------------------------------------------------

  datatype CruzVerdePage = CruzVerdePage(price: Option<string>, laboratory: Option<string>, heading: Option<string>)

  /**
   * The browser part runs inside `try`/`except Exception` that only prints:
   * `None` stands for a session in which navigation or a 30-second wait
   * failed, after which `price` was never assigned.
   */
  function CruzVerdeParse(session: Option<CruzVerdePage>): (r: Result<Scraped, Error>)
    ensures session.None? ==> r == Failure(UnboundName("price"))
    ensures r.Success? <==> session.Some? && session.value.laboratory.Some?
    ensures r.Success? ==> r.value.price == Some(if session.value.price.Some? then Str(session.value.price.value) else Null)
    ensures r.Success? ==> r.value.labName == Some(Str(Strip(session.value.laboratory.value)))
  {
    match session
    case None => Failure(UnboundName("price"))
    case Some(p) =>
      var lab :- Found(p.laboratory, "lab_name.strip()");   // None.strip() raises
      Success(Scraped(
        price := Some((match p.price case Some(t) => Str(t) case None => Null)),
        labName := Some(Str(Strip(lab))),
        webName := Some((match p.heading case Some(t) => Str(Strip(StripChar(t, '"'))) case None => Null))))
  }

  function CruzVerdeAdapter(resp: Response<Option<CruzVerdePage>>, data: Record): (r: Result<Record, Error>)
    ensures resp.status != 200 ==> r == Failure(HttpStatus(resp.status))
    ensures Honours(CruzVerde, data, r)
    ensures r.Success? ==>
      && resp.page.Some? && resp.page.value.price.Some? && resp.page.value.laboratory.Some?
      && r.value.price == Some(Str(resp.page.value.price.value))
      && r.value.labName == Some(Str(Strip(resp.page.value.laboratory.value)))
  {
    var fields := HandleHttpRequest(resp.status, resp.page, CruzVerdeParse);
    assert fields.Success? ==> fields == CruzVerdeParse(resp.page);
    assert RequiredKeys(CruzVerde) == Some(CruzVerdeRequired) && PriceKey in CruzVerdeRequired;
    var r := Finish(CruzVerde, data, fields);
    assert r.Success? ==> fields.Success? && Present(r.value, PriceKey) && r.value == Apply(data, fields.value);
    r
  }

  /** A loaded page without the price element fails the required-field check on `price`, the first key it checks. */
  lemma CruzVerdeMissingPriceFails(p: CruzVerdePage, data: Record)
    requires p.price.None? && p.laboratory.Some?
    ensures CruzVerdeAdapter(Response(200, Some(p)), data) == Failure(MissingRequired(PriceKey))
  {
    var f := CruzVerdeParse(Some(p)).value;
    assert Apply(data, f).Get(PriceKey) == Some(Null);
    assert CruzVerdeRequired[0] == PriceKey;
  }

  /** A swallowed session error still fails the row, through the unassigned price. */
  lemma CruzVerdeSessionErrorFails(data: Record)
    ensures CruzVerdeAdapter(Response(200, None), data) == Failure(UnboundName("price"))
  {
  }

  // ---------------------------------------------------------------------
  // profar (pharmacy.py lines 671-720)
  // ---------------------------------------------------------------------

  /** A `<meta data-react-helmet="true">` tag. */
  datatype MetaTag = MetaTag(property: Option<string>, content: Option<string>)

  datatype ProfarPage = ProfarPage(
    principleCell: Option<string>,  // the td after td[data-specification='Principio Activo']
    title: Option<string>,
    metaTags: seq<MetaTag>,
    buyButton: Option<bool>)        // the 'Comprar' button: Some(has a disabled attribute)

  const PriceProperty := "product:price:amount"
  const BrandProperty := "product:brand"

  /** The content of the last tag with the given property, `None` when no tag has it. */
  function LastContent(tags: seq<MetaTag>, property: string): Option<Option<string>>
    decreases |tags|
  {
    if tags == [] then None
    else if tags[|tags| - 1].property == Some(property) then Some(tags[|tags| - 1].content)
    else LastContent(tags[..|tags| - 1], property)
  }

  /** The loop over the meta tags: a later matching tag overwrites an earlier one. */
  method ProfarMetaScan(tags: seq<MetaTag>) returns (price: Option<Option<string>>, lab: Option<string>)
    ensures price == LastContent(tags, PriceProperty)
    ensures lab == match LastContent(tags, BrandProperty) case Some(c) => c case None => None
  {
    price := None;   // `price` unbound until a price tag is seen
    lab := None;
    var i := 0;
    while i < |tags|
      invariant 0 <= i <= |tags|
      invariant price == LastContent(tags[..i], PriceProperty)
      invariant lab == match LastContent(tags[..i], BrandProperty) case Some(c) => c case None => None
    {
      assert tags[..i + 1][..i] == tags[..i];
      if tags[i].property == Some(PriceProperty) {
        price := Some(tags[i].content);
      } else if tags[i].property == Some(BrandProperty) {
        lab := tags[i].content;
      }
      i := i + 1;
    }
    assert tags[..|tags|] == tags;
  }

  /** The title split on single spaces: token 0 is the name, token 1 the SkuKey. */
  function ProfarNameAndSku(title: string): (r: Result<(string, string), Error>)
    ensures r.Success? ==> ' ' !in r.value.0 && ' ' !in r.value.1
    ensures r.Success? ==> (|r.value.0| + 1 + |r.value.1| <= |title|
      && title[..|r.value.0| + 1 + |r.value.1|] == r.value.0 + " " + r.value.1)
    ensures r.Success? ==>
      |r.value.0| + 1 + |r.value.1| == |title| || title[|r.value.0| + 1 + |r.value.1|] == ' '
    ensures r.Failure? <==> ' ' !in title
  {
    var parts := Split(title, " ");
    ContainsChar(parts[0], ' ');
    ContainsChar(title, ' ');
    SplitSingleIffAbsent(title, " ");
    if |parts| < 2 then
      Failure(IndexOutOfRange("title.split(' ')[1]"))
    else
      ContainsChar(parts[1], ' ');
      ProfarTitlePrefix(parts, title);
      Success((parts[0], parts[1]))
  }

  lemma ProfarTitlePrefix(parts: seq<string>, title: string)
    requires |parts| >= 2 && Join(parts, " ") == title
    ensures |parts[0]| + 1 + |parts[1]| <= |title|
    ensures title[..|parts[0]| + 1 + |parts[1]|] == parts[0] + " " + parts[1]
    ensures |parts[0]| + 1 + |parts[1]| == |title| || title[|parts[0]| + 1 + |parts[1]|] == ' '
  {
    var rest := Join(parts[1..], " ");
    assert title == parts[0] + " " + rest;
    if |parts| == 2 {
      assert rest == parts[1];
    } else {
      assert rest == parts[1] + " " + Join(parts[2..], " ");
      assert title == parts[0] + " " + parts[1] + " " + Join(parts[2..], " ");
      assert title[|parts[0]| + 1 + |parts[1]|] == ' ';
    }
  }

  /** The SKU is the whole second token: in `"A BC"` it is `"BC"`, not a prefix of it. */
  lemma ProfarSkuWholeToken()
    ensures ProfarNameAndSku("A BC") == Success(("A", "BC"))
  {
    var r := ProfarNameAndSku("A BC");
    assert r.Success?;
    assert r.value.0 == "A" && r.value.1 == "BC" by {
      assert "A BC"[1] == ' ';
      assert ' ' !in r.value.0;
    }
  }

  /** `boton_comprar and 'disabled' not in boton_comprar.attrs`: `None` without a button. */
  function ProfarButtonAvailability(buyButton: Option<bool>): Value {
    match buyButton
    case Some(disabled) => Bool(!disabled)
    case None => Null
  }

  /** `lab_name` after the meta loop: the last brand tag's content, `None` without one. */
  function ProfarLab(tags: seq<MetaTag>): Value {
    match LastContent(tags, BrandProperty)
    case Some(Some(c)) => Str(c)
    case _ => Null
  }

  function ProfarParse(p: ProfarPage): (r: Result<Scraped, Error>)
    ensures r.Success? <==>
      && p.principleCell.Some? && p.title.Some? && ' ' in Strip(p.title.value)
      && LastContent(p.metaTags, PriceProperty).Some? && LastContent(p.metaTags, PriceProperty).value.Some?
    ensures r.Success? ==> r.value.isAvailable == Some(ProfarButtonAvailability(p.buyButton))
    ensures r.Success? ==> r.value.price == Some(Str("$" + LastContent(p.metaTags, PriceProperty).value.value))
    ensures r.Success? ==>
      && ProfarNameAndSku(Strip(p.title.value)).Success?
      && r.value.webName == Some(Str(ProfarNameAndSku(Strip(p.title.value)).value.0))
      && r.value.sku == Some(Str(ProfarNameAndSku(Strip(p.title.value)).value.1))
    ensures r.Success? ==> r.value.labName == Some(ProfarLab(p.metaTags))
    ensures r.Success? ==> r.value.activePrinciple == Some(Str(Strip(p.principleCell.value)))
  {
    var active :- Found(p.principleCell, "Principio Activo td");
    var title :- Found(p.title, "title");
    var nameSku :- ProfarNameAndSku(Strip(title));
    match LastContent(p.metaTags, PriceProperty)
    case None => Failure(UnboundName("price"))
    case Some(content) =>
      var price :- (match content
                    case Some(c) => Success(Str("$" + c))
                    case None => Failure(TypeMismatch("'$' + None")));
      Success(Scraped(
        price := Some(price),
        labName := Some(ProfarLab(p.metaTags)),
        isAvailable := Some(ProfarButtonAvailability(p.buyButton)),
        activePrinciple := Some(Str(Strip(active))),
        sku := Some(Str(nameSku.1)),
        webName := Some(Str(nameSku.0))))
  }

  function ProfarAdapter(resp: Response<ProfarPage>, data: Record): (r: Result<Record, Error>)
    ensures resp.status != 200 ==> r == Failure(HttpStatus(resp.status))
    ensures Honours(Profar, data, r)
    ensures r.Success? ==>
      && LastContent(resp.page.metaTags, PriceProperty).Some?
      && LastContent(resp.page.metaTags, PriceProperty).value.Some?
      && r.value.price == Some(Str("$" + LastContent(resp.page.metaTags, PriceProperty).value.value))
    ensures r.Success? ==>
      && resp.page.title.Some? && ProfarNameAndSku(Strip(resp.page.title.value)).Success?
      && r.value.webName == Some(Str(ProfarNameAndSku(Strip(resp.page.title.value)).value.0))
      && r.value.sku == Some(Str(ProfarNameAndSku(Strip(resp.page.title.value)).value.1))
  {
    HandleHttpRequest(resp.status, resp.page, (p: ProfarPage) => Finish(Profar, data, ProfarParse(p)))
  }

  /**
   * Without a 'Comprar' button availability is `None`, which the check
   * rejects; with one, availability is whether it lacks `disabled`.
   */
  lemma ProfarAvailability(p: ProfarPage, data: Record)
    requires ProfarAdapter(Response(200, p), data).Success?
    ensures p.buyButton.Some?
    ensures ProfarAdapter(Response(200, p), data).value.isAvailable == Some(Bool(!p.buyButton.value))
  {
    ProfarFinishedAvailability(ProfarParse(p), p.buyButton, data);
  }

  lemma ProfarFinishedAvailability(fields: Result<Scraped, Error>, buyButton: Option<bool>, data: Record)
    requires fields.Success? ==> fields.value.isAvailable == Some(ProfarButtonAvailability(buyButton))
    requires Finish(Profar, data, fields).Success?
    ensures buyButton.Some?
    ensures Finish(Profar, data, fields).value.isAvailable == Some(Bool(!buyButton.value))
  {
    assert ProfarRequired[2] == IsAvailableKey;
    FinishedRequired(Profar, data, fields, IsAvailableKey);
    ButtonAvailabilityPresent(buyButton, data, fields.value);
  }

  /** A button availability that survives into the record as non-`None` comes from a button. */
  lemma ButtonAvailabilityPresent(buyButton: Option<bool>, data: Record, f: Scraped)
    requires f.isAvailable == Some(ProfarButtonAvailability(buyButton))
    requires Present(Apply(data, f), IsAvailableKey)
    ensures buyButton.Some? && Apply(data, f).isAvailable == Some(Bool(!buyButton.value))
  {
    assert Apply(data, f).Get(IsAvailableKey) == f.isAvailable;
  }

  // ---------------------------------------------------------------------
  // knoplab (pharmacy.py lines 722-775)
  // ---------------------------------------------------------------------

  datatype KnopPage = KnopPage(
    sku: Value, lowPrice: Value, brandName: Value, name: Value,  // JSON-LD fields
    stockSpans: seq<string>,                                      // every span.units-in-stock
    stockParagraph: Option<string>)                               // p.units-in-stock

  /**
   * `int(text.strip().split(':')[1].strip())`; the inner `.strip()` is left to
   * `int`, which ignores surrounding whitespace (`PyStr.ParseIntIgnoresStrip`).
   */
  function KnopCount(text: string): (r: Result<int, Error>)
    ensures r == Failure(IndexOutOfRange("split(':')[1]")) <==> ':' !in Strip(text)
  {
    SecondPieceIffChar(Strip(text), ':');
    match SplitPiece(Strip(text), ":", 1)
    case None => Failure(IndexOutOfRange("split(':')[1]"))
    case Some(piece) =>
      match ParseInt(piece)
      case None => Failure(InvalidLiteral(Strip(piece)))
      case Some(n) => Success(n)
  }

  /**
   * `[f(x) for x in xs]` where `f` may raise: every result in order, or the
   * first exception.
   */
  function MapOrRaise<A, B>(xs: seq<A>, f: A -> Result<B, Error>): Result<seq<B>, Error>
    decreases |xs|
  {
    if xs == [] then Success([])
    else
      var first :- f(xs[0]);
      var rest :- MapOrRaise(xs[1..], f);
      Success([first] + rest)
  }

  /** A successful comprehension holds, at each position, that element's result. */
  lemma {:induction false} MapOrRaiseElements<A, B>(xs: seq<A>, f: A -> Result<B, Error>, i: nat)
    requires MapOrRaise(xs, f).Success? && i < |xs|
    ensures |MapOrRaise(xs, f).value| == |xs|
    ensures f(xs[i]) == Success(MapOrRaise(xs, f).value[i])
    decreases |xs|
  {
    if i == 0 {
      if |xs| > 1 {
        MapOrRaiseElements(xs[1..], f, 0);
      }
    } else {
      MapOrRaiseElements(xs[1..], f, i - 1);
    }
  }

  /** When every element succeeds, the comprehension gives exactly their results. */
  lemma {:induction false} MapOrRaiseAllSucceed<A, B>(xs: seq<A>, f: A -> Result<B, Error>, ys: seq<B>)
    requires |xs| == |ys|
    requires forall i :: 0 <= i < |xs| ==> f(xs[i]) == Success(ys[i])
    ensures MapOrRaise(xs, f) == Success(ys)
    decreases |xs|
  {
    if xs != [] {
      MapOrRaiseAllSucceed(xs[1..], f, ys[1..]);
      assert ys == [ys[0]] + ys[1..];
    }
  }

  /** One failing element makes the whole comprehension fail. */
  lemma {:induction false} MapOrRaiseFails<A, B>(xs: seq<A>, f: A -> Result<B, Error>, i: nat)
    requires i < |xs| && f(xs[i]).Failure?
    ensures MapOrRaise(xs, f).Failure?
    decreases |xs|
  {
    if i > 0 && f(xs[0]).Success? {
      MapOrRaiseFails(xs[1..], f, i - 1);
    }
  }

  predicate AnyPositive(counts: seq<int>) {
    exists i :: 0 <= i < |counts| && counts[i] > 0
  }

  /**
   * With several spans, available when any count is positive; with exactly
   * one, `.text` is read off the result list and raises; with none, the
   * paragraph's count decides; with neither, not available.
   */
  function KnopAvailable(spans: seq<string>, paragraph: Option<string>): (r: Result<bool, Error>)
    ensures |spans| == 1 ==> r == Failure(NoAttribute("ResultSet.text"))
    ensures spans == [] && paragraph.None? ==> r == Success(false)
    ensures spans == [] && paragraph.Some? ==>
      && (r.Success? <==> KnopCount(paragraph.value).Success?)
      && (r.Success? ==> (r.value <==> KnopCount(paragraph.value).value > 0))
  {
    if |spans| > 1 then
      var counts :- MapOrRaise(spans, KnopCount);
      Success(AnyPositive(counts))
    else if |spans| == 1 then Failure(NoAttribute("ResultSet.text"))
    else match paragraph
      case Some(t) =>
        var n :- KnopCount(t);
        Success(n > 0)
      case None => Success(false)
  }

  function KnopParse(p: KnopPage): (r: Result<Scraped, Error>)
    ensures r.Success? <==> KnopAvailable(p.stockSpans, p.stockParagraph).Success? && p.lowPrice.Str?
    ensures r.Success? ==> r.value.isAvailable == Some(Bool(KnopAvailable(p.stockSpans, p.stockParagraph).value))
    ensures r.Success? ==> r.value.price == Some(Str("$" + p.lowPrice.s))
  {
    var available :- KnopAvailable(p.stockSpans, p.stockParagraph);
    var price :- Dollar(p.lowPrice);
    Success(Scraped(
      price := Some(price),
      labName := Some(p.brandName),
      isAvailable := Some(Bool(available)),
      sku := Some(p.sku),
      webName := Some(p.name)))
  }

  function KnopAdapter(resp: Response<KnopPage>, data: Record): (r: Result<Record, Error>)
    ensures resp.status != 200 ==> r == Failure(HttpStatus(resp.status))
    ensures Honours(Knop, data, r)
    ensures r.Success? ==>
      && KnopAvailable(resp.page.stockSpans, resp.page.stockParagraph).Success?
      && r.value.isAvailable == Some(Bool(KnopAvailable(resp.page.stockSpans, resp.page.stockParagraph).value))
    ensures r.Success? ==> resp.page.lowPrice.Str? && r.value.price == Some(Str("$" + resp.page.lowPrice.s))
  {
    HandleHttpRequest(resp.status, resp.page, (p: KnopPage) => Finish(Knop, data, KnopParse(p)))
  }

  /**
   * Every span's count is parsed before any is tested, so one malformed span
   * fails the page even when another shows stock.
   */
  lemma KnopMalformedSpanFails(spans: seq<string>, paragraph: Option<string>, i: nat)
    requires |spans| > 1 && i < |spans| && KnopCount(spans[i]).Failure?
    ensures KnopAvailable(spans, paragraph).Failure?
  {
    MapOrRaiseFails(spans, KnopCount, i);
  }

  /** `[f(x) for x in xs]` succeeds exactly when `f` succeeds on every element. */
  lemma MapOrRaiseSucceeds<A, B>(xs: seq<A>, f: A -> Result<B, Error>)
    ensures MapOrRaise(xs, f).Success? <==> forall i :: 0 <= i < |xs| ==> f(xs[i]).Success?
  {
    if forall i :: 0 <= i < |xs| ==> f(xs[i]).Success? {
      var ys := seq(|xs|, i requires 0 <= i < |xs| => f(xs[i]).value);
      MapOrRaiseAllSucceed(xs, f, ys);
    } else {
      var i :| 0 <= i < |xs| && f(xs[i]).Failure?;
      MapOrRaiseFails(xs, f, i);
    }
  }

  /**
   * Several stock spans: the page's availability is known exactly when
   * every span's count parses, and then it is whether any count is positive.
   */
  lemma KnopSpansDecide(spans: seq<string>, paragraph: Option<string>)
    requires |spans| > 1
    ensures KnopAvailable(spans, paragraph).Success? <==> forall i :: 0 <= i < |spans| ==> KnopCount(spans[i]).Success?
    ensures KnopAvailable(spans, paragraph).Success? ==>
      (KnopAvailable(spans, paragraph).value <==> exists i :: 0 <= i < |spans| && KnopCount(spans[i]).value > 0)
  {
    MapOrRaiseSucceeds(spans, KnopCount);
    var m := MapOrRaise(spans, KnopCount);
    if m.Success? {
      var counts := m.value;
      MapOrRaiseElements(spans, KnopCount, 0);
      forall i | 0 <= i < |spans|
        ensures KnopCount(spans[i]).value == counts[i]
      {
        MapOrRaiseElements(spans, KnopCount, i);
      }
      assert KnopAvailable(spans, paragraph) == Success(AnyPositive(counts));
      if AnyPositive(counts) {
        var i :| 0 <= i < |counts| && counts[i] > 0;
        assert KnopCount(spans[i]).value > 0;
      }
    }
  }

  /** A page with exactly one stock span always fails. */
  lemma KnopSingleSpanFails(p: KnopPage, data: Record)
    requires |p.stockSpans| == 1
    ensures KnopAdapter(Response(200, p), data) == Failure(NoAttribute("ResultSet.text"))
  {
  }

  /** A caption without `c` has no occurrence of `[c]` before the `c` that follows it. */
  lemma NoEarlyChar(caption: string, c: char, rest: string)
    requires c !in caption
    ensures forall j: nat :: j < |caption| ==> !OccursAt(caption + [c] + rest, [c], j)
  {
    var s := caption + [c] + rest;
    forall j: nat | j < |caption|
      ensures !OccursAt(s, [c], j)
    {
      assert s[j..j + 1] == [caption[j]];
    }
  }

  lemma ColonLine(caption: string, n: int)
    requires caption == [] || !IsSpace(caption[0])
    requires ':' !in caption
    ensures SplitPiece(Strip(caption + ":" + IntToString(n)), ":", 1) == Some(IntToString(n))
  {
    NoEarlyChar(caption, ':', IntToString(n));
    IntLine(caption, ":", n);
  }

  /** The stock text `caption:n`, for a caption without a colon, counts `n`. */
  lemma KnopCountOf(caption: string, n: int)
    requires caption == [] || !IsSpace(caption[0])
    requires ':' !in caption
    ensures KnopCount(caption + ":" + IntToString(n)) == Success(n)
  {
    ColonLine(caption, n);
    ParseIntOfIntToString(n);
  }

  /** Several well-formed spans: available exactly when one of their counts is positive. */
  lemma KnopSeveralSpans(captions: seq<string>, counts: seq<int>)
    requires |captions| == |counts| > 1
    requires forall i :: 0 <= i < |captions| ==> ':' !in captions[i] && (captions[i] == [] || !IsSpace(captions[i][0]))
    ensures KnopAvailable(seq(|captions|, i requires 0 <= i < |captions| => captions[i] + ":" + IntToString(counts[i])), None)
            == Success(AnyPositive(counts))
  {
    var spans := seq(|captions|, i requires 0 <= i < |captions| => captions[i] + ":" + IntToString(counts[i]));
    forall i | 0 <= i < |spans| ensures KnopCount(spans[i]) == Success(counts[i]) {
      KnopCountOf(captions[i], counts[i]);
    }
    MapOrRaiseAllSucceed(spans, KnopCount, counts);
  }

  // ---------------------------------------------------------------------
  // farmaciajvf (pharmacy.py lines 778-882)
  // ---------------------------------------------------------------------

  /** A description block: its `h3` title and, when its value column and `h3` exist, the value text. */
  datatype JvfSection = JvfSection(title: Option<string>, value: Option<string>)

  datatype JvfPage = JvfPage(
    navigated: bool,            // driver.get(url) did not raise
    title: Option<string>,
    subtitle: Option<string>,   // the 'Laboratorio: ...' line
    finalPrice: Option<string>,
    sections: seq<JvfSection>,
    hasAddButton: bool,         // the 'Agregar' button was found
    receiptTitles: seq<string>) // every div.ph-product-detail-type-recepit-title

  predicate IsPrincipleSection(s: JvfSection) {
    s.title.Some? && Contains(s.title.value, "Principio activo")
  }

  /** Section `i` is the first one whose title contains 'Principio activo'. */
  predicate FirstPrincipleSection(sections: seq<JvfSection>, i: int) {
    && 0 <= i < |sections| && IsPrincipleSection(sections[i])
    && forall j :: 0 <= j < i ==> !IsPrincipleSection(sections[j])
  }

  /** The value of the first section whose title contains 'Principio activo', stripped; `None` without one. */
  function JvfCompound(sections: seq<JvfSection>): (r: Value)
    ensures (forall i :: 0 <= i < |sections| ==> !IsPrincipleSection(sections[i])) ==> r == Null
    ensures forall i :: FirstPrincipleSection(sections, i) ==> r == StrippedOrNull(sections[i].value)
    decreases |sections|
  {
    if sections == [] then Null
    else if IsPrincipleSection(sections[0]) then StrippedOrNull(sections[0].value)
    else
      var tail := sections[1..];
      assert forall i :: 1 <= i < |sections| ==> sections[i] == tail[i - 1];
      assert forall i :: FirstPrincipleSection(sections, i) ==> FirstPrincipleSection(tail, i - 1);
      JvfCompound(tail)
  }

  /** The loop over the description blocks, stopping at the first 'Principio activo'. */
  method JvfCompoundScan(sections: seq<JvfSection>) returns (compound: Value)
    ensures compound == JvfCompound(sections)
  {
    compound := Null;
    var i := 0;
    while i < |sections|
      invariant 0 <= i <= |sections|
      invariant compound == Null
      invariant JvfCompound(sections[i..]) == JvfCompound(sections)
    {
      assert sections[i..][1..] == sections[i + 1..];
      if IsPrincipleSection(sections[i]) {
        compound := StrippedOrNull(sections[i].value);
        break;
      }
      i := i + 1;
    }
  }

  /** A receipt title that reads 'Producto Bioequivalente' once stripped. */
  predicate BioequivalentTitle(title: string) {
    Strip(title) == "Producto Bioequivalente"
  }

  /** Some receipt title, scanning from the last, reads 'Producto Bioequivalente'. */
  predicate JvfBioequivalent(titles: seq<string>)
    decreases |titles|
  {
    titles != [] && (JvfBioequivalent(titles[..|titles| - 1]) || BioequivalentTitle(titles[|titles| - 1]))
  }

  /** The flag is set exactly when some title, at any position, reads 'Producto Bioequivalente'. */
  lemma JvfBioequivalentSome(titles: seq<string>)
    ensures JvfBioequivalent(titles) <==> exists i :: 0 <= i < |titles| && BioequivalentTitle(titles[i])
  {
    if JvfBioequivalent(titles) {
      JvfBioequivalentWitness(titles);
    }
    forall i | 0 <= i < |titles| && BioequivalentTitle(titles[i])
      ensures JvfBioequivalent(titles)
    {
      JvfBioequivalentAt(titles, i);
    }
  }

  lemma {:induction false} JvfBioequivalentWitness(titles: seq<string>)
    requires JvfBioequivalent(titles)
    ensures exists i :: 0 <= i < |titles| && BioequivalentTitle(titles[i])
    decreases |titles|
  {
    var init := titles[..|titles| - 1];
    if JvfBioequivalent(init) {
      JvfBioequivalentWitness(init);
      var i :| 0 <= i < |init| && BioequivalentTitle(init[i]);
      assert titles[i] == init[i];
    } else {
      assert BioequivalentTitle(titles[|titles| - 1]);
    }
  }

  lemma {:induction false} JvfBioequivalentAt(titles: seq<string>, i: nat)
    requires i < |titles| && BioequivalentTitle(titles[i])
    ensures JvfBioequivalent(titles)
    decreases |titles|
  {
    if i < |titles| - 1 {
      var init := titles[..|titles| - 1];
      assert init[i] == titles[i];
      JvfBioequivalentAt(init, i);
    }
  }

  /** One more title read: the flag for the longer prefix. */
  lemma JvfBioequivalentStep(titles: seq<string>, i: nat)
    requires i < |titles|
    ensures JvfBioequivalent(titles[..i + 1]) == (JvfBioequivalent(titles[..i]) || BioequivalentTitle(titles[i]))
  {
    var longer := titles[..i + 1];
    assert longer[..i] == titles[..i] && longer[i] == titles[i];
  }

  /** The loop over the receipt titles: bioequivalent once any reads 'Producto Bioequivalente'. */
  method JvfBioequivalentScan(titles: seq<string>) returns (bioequivalent: bool)
    ensures bioequivalent <==> JvfBioequivalent(titles)
  {
    bioequivalent := false;
    var i := 0;
    while i < |titles|
      invariant 0 <= i <= |titles|
      invariant bioequivalent == JvfBioequivalent(titles[..i])
    {
      JvfBioequivalentStep(titles, i);
      if BioequivalentTitle(titles[i]) {
        bioequivalent := true;
      }
      i := i + 1;
    }
    assert titles[..i] == titles;
  }

  /** `lab_element.text.strip().replace('Laboratorio:', '').strip()` */
  function JvfLab(subtitle: Option<string>): Value {
    match subtitle
    case Some(t) => Str(Strip(Replace(Strip(t), "Laboratorio:", "")))
    case None => Null
  }

  function JvfParse(p: JvfPage): (r: Result<Scraped, Error>)
    ensures r.Success? <==> p.navigated
    ensures r.Success? ==> r.value.activePrinciple == Some(JvfCompound(p.sections))
    ensures r.Success? ==> r.value.bioequivalent == Some(Bool(JvfBioequivalent(p.receiptTitles)))
    ensures r.Success? ==> r.value.isAvailable == Some(Bool(p.hasAddButton))
    ensures r.Success? ==> r.value.price == Some(StrippedOrNull(p.finalPrice))
    ensures r.Success? ==> r.value.labName == Some(JvfLab(p.subtitle))
    ensures r.Success? ==> r.value.webName == Some(StrippedOrNull(p.title))
  {
    if !p.navigated then Failure(SessionFailed("driver.get"))
    else Success(Scraped(
      price := Some(StrippedOrNull(p.finalPrice)),
      labName := Some(JvfLab(p.subtitle)),
      bioequivalent := Some(Bool(JvfBioequivalent(p.receiptTitles))),
      isAvailable := Some(Bool(p.hasAddButton)),
      activePrinciple := Some(JvfCompound(p.sections)),
      webName := Some(StrippedOrNull(p.title))))
  }

  /** No required-field check: a loaded page always yields a record, whatever is missing. */
  function FarmaciaJvfAdapter(p: JvfPage, data: Record): (r: Result<Record, Error>)
    ensures r.Success? <==> p.navigated
    ensures Honours(FarmaciaJvf, data, r)
    ensures r.Success? ==> r.value.activePrinciple == Some(JvfCompound(p.sections))
    ensures r.Success? ==> r.value.bioequivalent == Some(Bool(JvfBioequivalent(p.receiptTitles)))
    ensures r.Success? ==> r.value.isAvailable == Some(Bool(p.hasAddButton))
    ensures r.Success? && p.finalPrice.None? ==> r.value.price == Some(Null)
    ensures r.Success? ==> r.value.labName == Some(JvfLab(p.subtitle))
    ensures r.Success? ==> r.value.webName == Some(StrippedOrNull(p.title))
  {
    var fields := JvfParse(p);
    assert RequiredKeys(FarmaciaJvf).None?;
    assert fields.Success? <==> p.navigated;
    Finish(FarmaciaJvf, data, fields)
  }

  // ---------------------------------------------------------------------
  // anticonceptivo_cl (pharmacy.py lines 885-967)
  // ---------------------------------------------------------------------

  datatype AnticonceptivoPage = AnticonceptivoPage(
    navigated: bool,
    priceText: Option<string>,
    skuText: Option<string>,
    maker: Option<string>,
    title: Option<string>,
    cartButton: Option<bool>,   // Some(has a disabled attribute)
    compound: Option<string>)

  /** The first seven characters, as `text[:7]`. */
  function Take7(s: string): (r: string)
    ensures |r| <= 7 && |r| <= |s| && r == s[..|r|]
    ensures |r| == (if |s| < 7 then |s| else 7)
  {
    if |s| <= 7 then s else s[..7]
  }

  /** A price with three decimals loses its last digit: `"$129.990"[:7]` is `"$129.99"`. */
  lemma Take7CutsThousandths()
    ensures Take7("$129.990") == "$129.99"
  {
    assert "$129.990"[..7] == "$129.99";
  }

  /** The stored price: the stripped text cut to seven characters, `None` without the span. */
  function AnticonceptivoPrice(priceText: Option<string>): Value {
    match priceText
    case Some(t) => Str(Take7(Strip(t)))
    case None => Null
  }

  /** `None` without a cart button, `False` when it is disabled, `True` otherwise. */
  function AnticonceptivoAvailability(cartButton: Option<bool>): Value {
    match cartButton
    case None => Null
    case Some(disabled) => Bool(!disabled)
  }

  function AnticonceptivoParse(p: AnticonceptivoPage): (r: Result<Scraped, Error>)
    ensures r.Success? <==> p.navigated && (p.skuText.Some? ==> |Split(Strip(p.skuText.value), ":")| > 1)
    ensures r.Success? ==> r.value.isAvailable == Some(AnticonceptivoAvailability(p.cartButton))
    ensures r.Success? ==> r.value.price.Some? && (r.value.price.value.Str? ==> |r.value.price.value.s| <= 7)
    ensures r.Success? ==> r.value.price == Some(AnticonceptivoPrice(p.priceText))
    ensures r.Success? ==>
      && r.value.labName == Some(StrippedOrNull(p.maker))
      && r.value.webName == Some(StrippedOrNull(p.title))
      && r.value.activePrinciple == Some(StrippedOrNull(p.compound))
  {
    if !p.navigated then Failure(SessionFailed("driver.get"))
    else
      var sku :- (match p.skuText
                  case None => Success(Null)
                  case Some(t) =>
                    match SplitPiece(Strip(t), ":", 1)
                    case None => Failure(IndexOutOfRange("split(':')[1]"))
                    case Some(s) => Success(Str(Strip(s))));
      Success(Scraped(
        price := Some(AnticonceptivoPrice(p.priceText)),
        labName := Some(StrippedOrNull(p.maker)),
        isAvailable := Some(AnticonceptivoAvailability(p.cartButton)),
        sku := Some(sku),
        activePrinciple := Some(StrippedOrNull(p.compound)),
        webName := Some(StrippedOrNull(p.title))))
  }

  function AnticonceptivoAdapter(p: AnticonceptivoPage, data: Record): (r: Result<Record, Error>)
    ensures Honours(Anticonceptivo, data, r)
    ensures r.Success? <==> p.navigated && (p.skuText.Some? ==> |Split(Strip(p.skuText.value), ":")| > 1)
    ensures r.Success? ==> r.value.isAvailable == Some(AnticonceptivoAvailability(p.cartButton))
    ensures r.Success? ==> r.value.price.Some? && (r.value.price.value.Str? ==> |r.value.price.value.s| <= 7)
    ensures r.Success? ==> r.value.price == Some(AnticonceptivoPrice(p.priceText))
    ensures r.Success? ==>
      && r.value.labName == Some(StrippedOrNull(p.maker))
      && r.value.webName == Some(StrippedOrNull(p.title))
      && r.value.activePrinciple == Some(StrippedOrNull(p.compound))
  {
    Finish(Anticonceptivo, data, AnticonceptivoParse(p))
  }

  /** Without a cart button the record is still produced, with availability left `None`. */
  lemma AnticonceptivoNoButton(p: AnticonceptivoPage, data: Record)
    requires p.navigated && p.skuText.None? && p.cartButton.None?
    ensures AnticonceptivoAdapter(p, data).Success?
    ensures AnticonceptivoAdapter(p, data).value.isAvailable == Some(Null)
  {
  }

  // ---------------------------------------------------------------------
  // farmaloop (pharmacy.py lines 970-1044)
  // ---------------------------------------------------------------------

  /** What is found inside `div#__next`. */
  datatype FarmaloopContent = FarmaloopContent(
    heading: Option<string>, stockNotice: Option<string>, priceText: Option<string>,
    lab: Option<string>, compound: Option<string>)

  datatype FarmaloopPage = FarmaloopPage(navigated: bool, next: Option<FarmaloopContent>)

  /** No price when the 'sin stock' notice shows; otherwise the stripped price text, if any. */
  function FarmaloopPrice(c: FarmaloopContent): Value {
    if c.stockNotice.Some? && Contains(c.stockNotice.value, "Producto actualmente sin stock.") then Null
    else StrippedOrNull(c.priceText)
  }

  /** `True if price else False`: available exactly when the price is a non-empty string. */
  function FarmaloopAvailable(price: Value): (b: bool)
    ensures b <==> price.Str? && price.s != []
  {
    match price
    case Str(s) => s != []
    case _ => false
  }

  function FarmaloopParse(p: FarmaloopPage): (r: Result<Scraped, Error>)
    ensures r.Success? <==> p.navigated && p.next.Some?
    ensures r.Success? ==> r.value.price == Some(FarmaloopPrice(p.next.value))
    ensures r.Success? ==> r.value.isAvailable == Some(Bool(FarmaloopAvailable(FarmaloopPrice(p.next.value))))
  {
    if !p.navigated then Failure(SessionFailed("driver.get"))
    else match p.next
      case None => Failure(ElementNotFound("div#__next"))
      case Some(c) =>
        var price := FarmaloopPrice(c);
        Success(Scraped(
          price := Some(price),
          labName := Some(StrippedOrNull(c.lab)),
          isAvailable := Some(Bool(FarmaloopAvailable(price))),
          activePrinciple := Some(StrippedOrNull(c.compound)),
          webName := Some(StrippedOrNull(c.heading))))
  }

  function FarmaloopAdapter(p: FarmaloopPage, data: Record): (r: Result<Record, Error>)
    ensures Honours(Farmaloop, data, r)
    ensures r.Success? <==> p.navigated && p.next.Some?
    ensures r.Success? ==> r.value.price.Some? && r.value.isAvailable.Some?
    ensures r.Success? ==> r.value.isAvailable.value == Bool(r.value.price.value.Str? && r.value.price.value.s != [])
  {
    Finish(Farmaloop, data, FarmaloopParse(p))
  }

  /** The 'sin stock' notice leaves the price `None` and the product unavailable. */
  lemma FarmaloopOutOfStock(p: FarmaloopPage, data: Record)
    requires p.navigated && p.next.Some?
    requires p.next.value.stockNotice.Some?
    requires Contains(p.next.value.stockNotice.value, "Producto actualmente sin stock.")
    ensures FarmaloopAdapter(p, data).Success?
    ensures FarmaloopAdapter(p, data).value.price == Some(Null)
    ensures FarmaloopAdapter(p, data).value.isAvailable == Some(Bool(false))
  {
  }
}
