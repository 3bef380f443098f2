# Pharmacy website scraper — a Dafny model

This project models the ETL core of a scraper that gathers medication prices from Chilean online pharmacies:

- **Extraction** (`src/extraction/extract_data.py`). Each input row (URL, product name, pharmacy name) becomes a seed record dict. The URL is routed to a per-pharmacy adapter by the first site fragment it contains. The adapter's fields are merged into the record, and the record is stored in a two-level dict keyed by product and then by pharmacy. A row whose URL is unknown, or whose adapter raises, is skipped.
- **The older extractor** (`src/old/extract_data.py`). It has an `if`/`elif` chain over thirteen fragments and a three-key seed. Unknown URLs are still stored. There is no exception handling, so the first failing adapter ends the run.
- **The decorators** (`src/utils/decorators.py`):
  - the required-field check `validate_data`;
  - the HTTP status gate `handle_http_request`;
  - the browser lifetime `initialize_driver`, which quits the driver in a `finally`.
- **The adapters** (`src/utils/pharmacy.py`). Each adapter is modelled on what BeautifulSoup or Selenium would have found on the page. A missing element is `None`. Each site has its own rules for availability, price text, bioequivalence, name and SKU splitting, and its own required-field list.
- **Normalisation** (`src/transformation/transform_data.py`). It covers:
  - flattening the nested dict into rows, in insertion order;
  - `None` to NaN;
  - date coercion;
  - title case for two columns;
  - the `clean_price` rewriter;
  - the eleven-column rename.

## Modules

- `Wrappers`: `Option` and `Result`.
- `PyStr`: the Python `str` operations the code relies on, namely `strip`, `rstrip` with a character set, `in`, `split`, `replace`, `int()`, `str(int)` and `title`.
- `Dates`: `strftime('%Y-%m-%d')`, and the parsing `pd.to_datetime` applies to that text.
- `Records`:
  - record dicts over the eleven keys;
  - the exceptions that end a row;
  - Python's insertion-ordered `dict` for `med_data`.
- `Decorators`: `Validate` and `HandleHttpRequest`, a `Browser` class and the `InitializeDriver` method.
- `Pharmacy`: the sixteen adapters. The loops of `meki`, `profar` and `farmaciajvf` are methods, each proved against a specification function.
- `Extract`: the dispatcher, the seed, one row's processing, and the `ExtractData` loop proved against `Collect`.
- `OldExtract`: the older dispatcher, seed and loop (`OldExtractData`, proved against `OldCollect`).
- `Frames`: the DataFrame as a column list and rows of cells, `to_datetime`, `title`, and the rename.
- `Prices`: `clean_price` as written (`CleanPrice`) and with the evident intent (`CleanPriceIntended`).
- `Transform`: the flatten loop (`FlattenRecords`), the whole stage `Normalize`, and `TransformData`.
- `Pipeline`: facts about records that pass through both extraction and normalisation.

Behaviours of `clean_price`, `transform_data` and the seed record worth noting:

- `clean_price("$1.234,0")` gives `12340`, not `1234`. The comma is removed before the `.0` test, so the text no longer ends in `.0` (`Prices.CleanPriceExampleComma`).
- A price text that `int()` cannot read makes the whole transform raise; the row is not dropped (`Transform.NormalizeSucceedsIff`).
- The seed record has eleven keys, not twelve, because `more_products` is commented out (`src/extraction/extract_data.py:103`).

## Model

| member | source | states |
|---|---|---|
| PyStr.StripWhile | src/utils/pharmacy.py:60 | `strip(chars)` leaves no dropped character at either end, adds no character, and leaves a string without one at its ends unchanged |
| PyStr.StripUnchanged | src/utils/pharmacy.py:67 | a string that neither starts nor ends with whitespace is its own `strip()` |
| PyStr.StripPadded | src/utils/pharmacy.py:344 | whitespace around a text that neither starts nor ends with whitespace is what `strip()` removes |
| PyStr.Split | src/utils/pharmacy.py:68 | the pieces of `split(sep)` join back with `sep` into the string, and none contains `sep` |
| PyStr.SplitSingleIffAbsent | src/utils/pharmacy.py:695-697 | `split(sep)` gives a single piece exactly when `sep` does not occur, so `[1]` raises exactly then |
| PyStr.ReplaceCharDeletes | src/transformation/transform_data.py:46 | `replace(c, '')` for one character removes every occurrence of `c` and nothing else |
| PyStr.Replace | src/transformation/transform_data.py:46 | `replace` of a target that does not occur returns the text unchanged |
| PyStr.DeleteCharAppend | src/transformation/transform_data.py:46-51 | removing a character from a concatenation removes it from each part |
| PyStr.ParseIntIgnoresStrip | src/utils/pharmacy.py:756 | `int()` of a stripped text reads the same as `int()` of the text |
| PyStr.ParseIntOfIntToString | src/utils/pharmacy.py:68 | `int(str(n)) == n` for every integer |
| PyStr.ParseInt | src/transformation/transform_data.py:52 | `int()` raises on blank text, reads an all-digit stripped text as its value, and accepts only digits after a leading sign |
| PyStr.TitleIdempotent | src/transformation/transform_data.py:38-39 | applying `title()` twice is applying it once |
| PyStr.TitleKeepsUncased | src/transformation/transform_data.py:38-39 | `title()` leaves every uncased character where it was |
| PyStr.Title | src/transformation/transform_data.py:38-39 | `title()` keeps the length, upper-cases a character after an uncased one (or at the start) and lower-cases one after a cased one |
| PyStr.TitleAfter | src/transformation/transform_data.py:38-39 | the same rule, continued from a given case of the previous character |
| Records.KeyNameInjective | src/extraction/extract_data.py:93-106 | the eleven record keys have distinct names |
| Records.Record.Update | src/extraction/extract_data.py:112 | `d.update(other)`: every key `other` holds takes its value, every other key keeps its own |
| Records.Dict.Put | src/extraction/extract_data.py:151-153 | `d[k] = v` keeps the dict well formed; an existing key keeps its place and a new key goes last |
| Records.EmptyDict | src/extraction/extract_data.py:84 | `{}` is a well-formed dict with no entries |
| Records.StoreNested | src/extraction/extract_data.py:151-153 | creating the inner dict when missing, then assigning into it, leaves the dict `Store` describes |
| Records.Store | src/extraction/extract_data.py:151-153 | after storing, the (product, pharmacy) pair reads back the record and every other pair is unchanged |
| Records.PutInnerValid | src/extraction/extract_data.py:151-153 | putting a well-formed inner dict into a well-formed `med_data` keeps every dict well formed |
| Records.PutInnerLookup | src/extraction/extract_data.py:151-153 | the nested assignment sets the lookup of its own (product, pharmacy) pair and leaves every other pair as it was |
| Dates.FormatDate | src/extraction/extract_data.py:94 | `strftime('%Y-%m-%d')` always gives ten characters |
| Dates.ParseDate | src/transformation/transform_data.py:35 | a parsed date is a valid calendar date within the timestamp range |
| Dates.ParseFormatRoundTrip | src/transformation/transform_data.py:35 | parsing a formatted in-range date gives the date back |
| Dates.ParsedDateFormatsBack | src/transformation/transform_data.py:35 | text that parses is exactly the formatting of its date |
| Dates.OutOfRangeIsNull | src/transformation/transform_data.py:35 | with `errors='coerce'`, a formatted date outside the timestamp range becomes null instead of raising |
| Decorators.Validate | src/utils/decorators.py:25-35 | succeeds iff every required key holds a non-`None` value, and then returns the record unchanged; otherwise it names the first required key, in list order, that is absent or `None` |
| Decorators.ValidateAcceptsFalsy | src/utils/decorators.py:31 | `False`, `0` and `""` pass the `is None` test |
| Decorators.ValidateIgnoresOtherKeys | src/utils/decorators.py:30-32 | writing a key that is not required never changes whether the check passes |
| Decorators.HandleHttpRequest | src/utils/decorators.py:37-44 | a status other than 200 raises `HTTPError` with that status; a 200 response goes to the parser |
| Decorators.HttpGateIgnoresParser | src/utils/decorators.py:40-42 | on a failed request, neither the page nor the parser affects the outcome |
| Decorators.Browser.constructor | src/utils/decorators.py:17 | a new browser session is open and has not been quit |
| Decorators.Browser.Quit | src/utils/decorators.py:21 | `driver.quit()` closes the session and counts one more quit |
| Decorators.InitializeDriver | src/utils/decorators.py:9-23 | the wrapped function's outcome, success or exception, is passed on unchanged, and the browser is closed afterwards (quit twice when the function also quits it) |
| Pharmacy.RequiredKeysAreScraped | src/utils/pharmacy.py:40 | every required-field list names only scraped keys and includes `price` and `web_name` |
| Pharmacy.Apply | src/utils/pharmacy.py:78-84 | `data.update({...})` with the adapter's fields: written keys take the new values and the rest are kept |
| Pharmacy.Finish | src/utils/pharmacy.py:39-40 | an adapter's result is the updated record, validated against the site's list; its exception passes through; sites without a list return the updated record |
| Pharmacy.FinishedRequired | src/utils/pharmacy.py:40 | a record that passes the check holds a non-`None` value for each required key |
| Pharmacy.FinishValidates | src/utils/pharmacy.py:39-40 | for a site with a required list, finishing a parse is the check over the merged record |
| Pharmacy.FinishAllWritten | src/utils/pharmacy.py:39-40 | when the adapter wrote a non-`None` value under every required key, the check passes and returns the merged record |
| Pharmacy.FarmexAdapter | src/utils/pharmacy.py:39-86 | a status other than 200 raises; a result keeps the context fields, satisfies the farmex required list, and stores the stock rule's answer as `is_available` and the stripped price text as `price` |
| Pharmacy.FarmexInStock | src/utils/pharmacy.py:67-68 | a stripped stock text without `": "` raises `IndexError` on `split(': ')[1]` |
| Pharmacy.FarmexParse | src/utils/pharmacy.py:58-85 | succeeds iff the heading, the price, the stock text exist and the stock rule reads; `is_available` is the stock rule, `price` the stripped price text, `web_name` the heading without its quotes |
| Pharmacy.FarmexStoredStock | src/utils/pharmacy.py:67-68 | a stored record whose stock text is `caption: n` has `is_available == (n > 0)` |
| Pharmacy.IntLine | src/utils/pharmacy.py:68 | the text `caption + sep + str(n)` splits into the caption and the number |
| Pharmacy.IntLineStrip | src/utils/pharmacy.py:67 | a stock line that starts without whitespace and ends in a numeral is unchanged by `strip()` |
| Pharmacy.NoEarlyColonSpace | src/utils/pharmacy.py:68 | a caption without `': '` has no separator occurrence before the one that follows it |
| Pharmacy.ColonSpaceLine | src/utils/pharmacy.py:67-68 | for a caption without `": "`, piece 1 of the stripped line `caption: n` split on `": "` is exactly the numeral of `n` |
| Pharmacy.FarmexStockCount | src/utils/pharmacy.py:67-68 | the stock text `caption: n` means available iff `n > 0` |
| Pharmacy.RunWithout | src/utils/pharmacy.py:128 | the `[^|]+` capture is the longest prefix without `'|'` |
| Pharmacy.ActiveCaptureFrom | src/utils/pharmacy.py:128 | a capture is non-empty, has no `'|'`, and follows `'Principio Activo: '` in the text |
| Pharmacy.ActiveCaptureLeftmost | src/utils/pharmacy.py:128 | a capture is the `[^|]+` run after the leftmost position from which the pattern matches |
| Pharmacy.ActiveCaptureNone | src/utils/pharmacy.py:128 | there is no capture iff no position from `from` on starts a match |
| Pharmacy.ActiveCaptureHit | src/utils/pharmacy.py:128 | a label found where the pattern matches gives the run after it |
| Pharmacy.ActiveCaptureSkip | src/utils/pharmacy.py:128 | a label followed by `'|'` or the end is skipped: the search resumes one position later, with no match before it |
| Pharmacy.ActiveCaptureFirst | src/utils/pharmacy.py:128 | when the first match starts at `m`, the capture is the run after the label at `m` |
| Pharmacy.SalcobrandActivePrinciple | src/utils/pharmacy.py:128-129 | the active principle has no `'|'` or `'/'` and is trimmed; it is `None` exactly when the pattern does not match |
| Pharmacy.StripFirstSlashPiece | src/utils/pharmacy.py:129 | `strip().split('/')[0].strip()` of `a/b` is `a` stripped, for `a` without `'/'` |
| Pharmacy.SalcobrandActivePrincipleOf | src/utils/pharmacy.py:128-129 | a description `... Principio Activo: a/b|...` with no earlier match gives `a` stripped |
| Pharmacy.SalcobrandParse | src/utils/pharmacy.py:90-153 | succeeds iff the description meta tag exists, the SKU and lab lookups do not raise and the tracker has a price; the active principle, `'$' + price`, availability and bioequivalence are stored as read |
| Pharmacy.SalcobrandAdapter | src/utils/pharmacy.py:88-155 | a status other than 200 raises; a result has a tracker and a description, keeps the context fields, satisfies the salcobrand required list, and stores the description's active principle and the tracker's availability |
| Pharmacy.SalcobrandWithoutTracker | src/utils/pharmacy.py:109-111 | without the tracker script the adapter returns `{}`, and the check then raises for `price` |
| Pharmacy.SalcobrandPriceHasDollar | src/utils/pharmacy.py:123-146 | a stored price is `'$'` followed by the tracker's price text |
| Pharmacy.BuhochileAdapter | src/utils/pharmacy.py:157-202 | a status other than 200 raises; a result keeps the context fields, satisfies the buhochile required list, and is available iff the availability meta tag reads `'in stock'` |
| Pharmacy.BuhochileParse | src/utils/pharmacy.py:159-200 | succeeds iff the availability meta tag exists; available iff it reads `'in stock'`; `price` is `'$'` and the minimum price; `bioequivalent` as read |
| Pharmacy.ElQuimicoAdapter | src/utils/pharmacy.py:204-267 | a status other than 200 raises; a result keeps the context fields, satisfies the elquimico required list, is available iff the stock text strips to `'En stock'`, and names a title-less page "Name product not found" |
| Pharmacy.ElQuimicoParse | src/utils/pharmacy.py:207-265 | a failed navigation raises; otherwise it succeeds iff the subtotal, stock span, a second info value, the strong text and the vendor exist; availability, the SKU (second info value, stripped) and the fallback name follow the source |
| Pharmacy.AhumadaAdapter | src/utils/pharmacy.py:269-312 | a status other than 200 raises; a result keeps the context fields, satisfies the ahumada required list, and is available iff the cart button text contains `'Agregar al carrito'` |
| Pharmacy.AhumadaParse | src/utils/pharmacy.py:271-310 | succeeds iff the principle cell, lab cell, name, price and cart button exist; available iff the button reads `'Agregar al carrito'`; `price` is the stripped price text |
| Pharmacy.EcoName | src/utils/pharmacy.py:359-360 | the name has no `'('`, and a title without one gives the title stripped |
| Pharmacy.EcoFarmaciasAdapter | src/utils/pharmacy.py:314-370 | a status other than 200 raises; a result keeps the context fields, satisfies the ecofarmacias required list, and stores the stock rule's availability and the name cut at `'('` |
| Pharmacy.EcoParse | src/utils/pharmacy.py:316-368 | succeeds iff the price, SKU and title exist and an active-principle item, when present, has a `": "`; it stores the stock rule, the name cut at `'('` and the price text |
| Pharmacy.EcoNameBeforeParen | src/utils/pharmacy.py:359-360 | `title.split('(')[0].strip()` of `a(b` is `a` stripped, for `a` without `'('` |
| Pharmacy.EcoSoldOutParagraph | src/utils/pharmacy.py:342-346 | a stock paragraph reading `'Sin existencias'`, with any surrounding whitespace, stores unavailable |
| Pharmacy.DrSimiPriceText | src/utils/pharmacy.py:396-404 | the price is currency code + first integer part + group separator + second integer part; it fails without all four |
| Pharmacy.DrSimiAdapter | src/utils/pharmacy.py:372-444 | a status other than 200 raises; a result keeps the context fields, satisfies the drsimi required list, and stores the assembled price text, the bioequivalence rule and the cart button's presence |
| Pharmacy.DrSimiParse | src/utils/pharmacy.py:374-442 | succeeds iff the price text assembles and the SKU and brand exist; stores the price text, the bioequivalence rule, the cart button's presence, and the stripped SKU and brand |
| Pharmacy.DrSimiWithoutBioequivalenceText | src/utils/pharmacy.py:415-421 | a page without the bioequivalence paragraph still passes the check, with `bioequivalent` False |
| Pharmacy.DrSimiWritesRequired | src/utils/pharmacy.py:373 | values under price, bioequivalent, is_available, sku and web_name cover the drsimi required list |
| Pipeline.DrSimiPriceCleans | src/utils/pharmacy.py:396-404 | the assembled price `$` + `x` + `.` + three digits is accepted by `clean_price` as `1000 * x + y` |
| Pharmacy.NovaSaludAdapter | src/utils/pharmacy.py:446-493 | a status other than 200 raises; a result keeps the context fields, satisfies the novasalud required list, and is available iff the stock text strips to `'En stock'` |
| Pharmacy.NovaSaludParse | src/utils/pharmacy.py:448-491 | succeeds iff the name, SKU, price, stock, principle and lab cells exist; available iff the stock text strips to `'En stock'`; `price` is the stripped price text |
| Pharmacy.MercadoFarmaAvailable | src/utils/pharmacy.py:524-525 | available iff the stripped stock text contains `'quedan'` and no `'0'` anywhere |
| Pharmacy.MercadoFarmaAdapter | src/utils/pharmacy.py:495-534 | a status other than 200 raises; a result keeps the context fields, satisfies the mercadofarma required list, and stores the stock rule and the last child of the price span, stripped |
| Pharmacy.MercadoFarmaParse | src/utils/pharmacy.py:497-532 | succeeds iff title, vendor, inventory and a non-empty price span exist; `price` is its last child stripped, and the availability, lab and name follow the source |
| Pharmacy.MercadoFarmaStoredStock | src/utils/pharmacy.py:524-525 | a stored record whose stock reads `quedan n` is available iff `n > 0` and the numeral has no zero |
| Pharmacy.QuedanLine | src/utils/pharmacy.py:524-525 | `'quedan ' + t` is available iff `t` has no `'0'` |
| Pharmacy.MercadoFarmaCount | src/utils/pharmacy.py:524-525 | `'quedan n'` is available iff `n > 0` and the numeral has no zero digit |
| Pharmacy.MercadoFarmaTenIsUnavailable | src/utils/pharmacy.py:525 | `'quedan 10'` counts as unavailable |
| Pharmacy.MekiScan | src/utils/pharmacy.py:568-572 | the paragraph loop finds availability iff some paragraph contains both `'Recibe'` and `'mañana'` |
| Pharmacy.MekiAdapter | src/utils/pharmacy.py:536-583 | a status other than 200 raises; a 200 response succeeds iff none of the five product values is `null`; a result keeps the context fields, satisfies the meki required list, and stores the delivery-paragraph rule |
| Pharmacy.MekiParse | src/utils/pharmacy.py:538-581 | given the decoded product, always succeeds; stores the five product values as read and the delivery-paragraph rule |
| Pharmacy.MekiRequiredValues | src/utils/pharmacy.py:537 | the required-field check passes iff none of the five product values is `null` |
| Pharmacy.MekiApplied | src/utils/pharmacy.py:575-580 | after the merge, each required key holds the value read from the page |
| Pharmacy.MekiValidate | src/utils/pharmacy.py:537 | over the meki required list, the check passes iff each key holds a non-`None` value |
| Pharmacy.CruzVerdeAdapter | src/utils/pharmacy.py:585-669 | a status other than 200 raises; a result keeps the context fields, satisfies the cruzverde required list, and so had a price element, whose text is the price, and a laboratory, stored stripped |
| Pharmacy.CruzVerdeParse | src/utils/pharmacy.py:588-667 | a failed session leaves `price` unbound and raises; otherwise it succeeds iff the laboratory exists, and `price` is the price text or `None` |
| Pharmacy.CruzVerdeMissingPriceFails | src/utils/pharmacy.py:585-641 | a page without a price element is rejected by the check for `price` |
| Pharmacy.CruzVerdeSessionErrorFails | src/utils/pharmacy.py:608-669 | when the Selenium session fails, the caught exception leaves `price` unbound and the adapter raises |
| Pharmacy.ProfarMetaScan | src/utils/pharmacy.py:701-706 | the meta-tag loop keeps the content of the last price tag and of the last brand tag |
| Pharmacy.ProfarNameAndSku | src/utils/pharmacy.py:695-697 | name and SKU are the first two space-free tokens of the title, which begins with `name + ' ' + sku`, and the SKU runs to the next space or the end of the title; it fails iff the title has no space |
| Pharmacy.ProfarSkuWholeToken | src/utils/pharmacy.py:695-697 | the title `"A BC"` gives name `"A"` and SKU `"BC"`, the whole second token |
| Pharmacy.ProfarTitlePrefix | src/utils/pharmacy.py:695-697 | the first two tokens of a split title, joined by a space, are a prefix of it, followed by a space or the end of the title |
| Pharmacy.ProfarParse | src/utils/pharmacy.py:690-718 | succeeds iff the principle cell and the title are found, the stripped title has a space, and the last price meta tag has a content; the price is `'$'` + that content, name and SKU are the title's first two tokens, the laboratory is the last brand tag's content, the active principle is the stripped cell, and availability is the buy button's state: `None` without a button, otherwise whether the button lacks `disabled` |
| Pharmacy.ProfarAdapter | src/utils/pharmacy.py:671-720 | a status other than 200 raises; a result keeps the context fields, satisfies the profar required list, stores `'$'` + the last price meta tag's content, and stores the title's first two tokens as name and SKU |
| Pharmacy.ProfarAvailability | src/utils/pharmacy.py:709-710 | a stored profar record has a buy button, and is available iff the button is not disabled |
| Pharmacy.ProfarFinishedAvailability | src/utils/pharmacy.py:672 | the required-field check rejects the `None` availability of a page without a buy button |
| Pharmacy.ButtonAvailabilityPresent | src/utils/pharmacy.py:709-710 | an availability taken from the button that ends up non-`None` in the record means there was a button, and it is `not disabled` |
| Pharmacy.MapOrRaiseElements | src/utils/pharmacy.py:756 | a comprehension that succeeds holds each element's result at that element's position |
| Pharmacy.MapOrRaiseAllSucceed | src/utils/pharmacy.py:756 | when every element succeeds, the comprehension gives exactly their results |
| Pharmacy.MapOrRaiseFails | src/utils/pharmacy.py:756 | one failing element makes the comprehension raise |
| Pharmacy.KnopAdapter | src/utils/pharmacy.py:722-775 | a status other than 200 raises; a result keeps the context fields, satisfies the knoplab required list, stores the stock rule, and stores `'$' + lowPrice` |
| Pharmacy.KnopParse | src/utils/pharmacy.py:724-773 | succeeds iff the stock rule reads and `lowPrice` is a string; stores the stock rule and `'$' + lowPrice` |
| Pharmacy.KnopAvailable | src/utils/pharmacy.py:752-765 | one span raises; no span and no paragraph is unavailable; a paragraph alone succeeds iff its count reads, and is then available iff the count is positive |
| Pharmacy.KnopSpansDecide | src/utils/pharmacy.py:755-757 | several spans succeed iff every count reads, and are then available iff some count is positive |
| Pharmacy.KnopCount | src/utils/pharmacy.py:756-763 | `split(':')[1]` raises `IndexError` iff the stripped text has no `':'` |
| PyStr.SecondPieceIffChar | src/utils/pharmacy.py:756 | `s.split(c)[1]` exists iff `c` occurs in `s` |
| Pharmacy.MapOrRaiseSucceeds | src/utils/pharmacy.py:756 | the comprehension succeeds iff every element succeeds |
| Pharmacy.KnopMalformedSpanFails | src/utils/pharmacy.py:755-757 | with several spans, one unreadable count fails the page even when another span shows stock |
| Pharmacy.KnopSingleSpanFails | src/utils/pharmacy.py:758-760 | a page with exactly one stock span always raises, because `.text` is read off a result list |
| Pharmacy.NoEarlyChar | src/utils/pharmacy.py:756 | a caption without `c` has no `c` before the separator that follows it |
| Pharmacy.ColonLine | src/utils/pharmacy.py:756 | piece 1 of `caption:n` split on `':'` is the numeral of `n` |
| Pharmacy.KnopCountOf | src/utils/pharmacy.py:756 | the stock text `caption:n` counts `n` |
| Pharmacy.KnopSeveralSpans | src/utils/pharmacy.py:755-757 | several well-formed spans mean available iff some count is positive |
| Pharmacy.JvfCompoundScan | src/utils/pharmacy.py:845-853 | the loop returns the value of the first block whose title contains `'Principio activo'`, or `None` |
| Pharmacy.JvfCompound | src/utils/pharmacy.py:845-853 | `None` without a block whose title contains `'Principio activo'`; otherwise the first such block's value, stripped, or `None` |
| Pharmacy.JvfBioequivalentScan | src/utils/pharmacy.py:862-868 | bioequivalent iff some receipt title reads `'Producto Bioequivalente'` once stripped |
| Pharmacy.JvfBioequivalentSome | src/utils/pharmacy.py:862-868 | the flag the loop computes holds exactly when some feature title strips to "Producto Bioequivalente" |
| Pharmacy.JvfBioequivalentWitness | src/utils/pharmacy.py:862-868 | a set flag has a feature title that strips to "Producto Bioequivalente" behind it |
| Pharmacy.JvfBioequivalentAt | src/utils/pharmacy.py:862-868 | one such title anywhere in the list sets the flag |
| Pharmacy.FarmaciaJvfAdapter | src/utils/pharmacy.py:778-882 | with no required-field check, a loaded page always yields a record; it fails iff navigation fails; the record stores the first principle block, the bioequivalence scan, the add button's presence, the subtitle without `'Laboratorio:'` as the laboratory, the stripped title as the name, and `None` as the price when the price element is missing |
| Pharmacy.JvfParse | src/utils/pharmacy.py:780-880 | succeeds iff navigation succeeds; stores the first principle block, the bioequivalence scan, the add button's presence, the stripped price or `None`, the subtitle stripped with `'Laboratorio:'` removed as the laboratory, and the stripped title as the name |
| Pharmacy.JvfBioequivalentStep | src/utils/pharmacy.py:862-868 | one more title keeps the flag, or sets it when the title strips to "Producto Bioequivalente" |
| Pharmacy.Take7 | src/utils/pharmacy.py:925 | `text[:7]` is the prefix of the text of length seven, or the whole text when it is shorter |
| Pharmacy.Take7CutsThousandths | src/utils/pharmacy.py:925 | the cut drops the last digit of a price with three decimals: `"$129.990"` becomes `"$129.99"` |
| Pharmacy.AnticonceptivoParse | src/utils/pharmacy.py:912-953 | succeeds iff the page loaded and the SKU text, when present, has a `':'`; availability is `None`, `False` or `True` as the cart button is missing, disabled or enabled; the price is the stripped price text cut to seven characters; laboratory, name and active principle are the stripped maker, title and compound texts, `None` where missing |
| Pharmacy.AnticonceptivoAdapter | src/utils/pharmacy.py:885-967 | the same success condition, availability, price, laboratory, name and active principle, after `data.update` and with the context fields kept |
| Pharmacy.AnticonceptivoNoButton | src/utils/pharmacy.py:940-949 | without a cart button the record is still produced, with availability `None` |
| Pharmacy.FarmaloopAvailable | src/utils/pharmacy.py:1032 | `True if price else False` holds iff the price is a non-empty string |
| Pharmacy.FarmaloopParse | src/utils/pharmacy.py:997-1032 | succeeds iff the page loaded and has `div#__next`; the price is `None` under the "sin stock" notice, and availability follows the price |
| Pharmacy.FarmaloopAdapter | src/utils/pharmacy.py:970-1044 | the same success condition; availability is whether the stored price is a non-empty string |
| Pharmacy.FarmaloopOutOfStock | src/utils/pharmacy.py:1017-1018 | the "sin stock" notice leaves the price `None` and the product unavailable |
| Extract.FirstMatch | src/extraction/extract_data.py:110-144 | no match iff no fragment occurs in the URL; otherwise the first fragment, in table order, that occurs |
| OldExtract.FirstMatchAt | src/old/extract_data.py:134-159 | a matching entry with no match before it is the first match |
| OldExtract.FirstMatchFrom | src/old/extract_data.py:134-159 | with no match among the first `n` entries, a first match, if any, lies at `n` or later |
| OldExtract.PrefixMisses | src/old/extract_data.py:134-159 | misses among a prefix's entries are misses among the table's first entries |
| Extract.SiteFragment | src/extraction/extract_data.py:110-142 | every site has a fragment in the dispatch table |
| Extract.DispatchFirstMatch | src/extraction/extract_data.py:110-144 | dispatch fails iff the URL contains none of the sixteen fragments; otherwise it picks a site from the table |
| Extract.DispatchToSite | src/extraction/extract_data.py:110-142 | the first fragment that occurs in the URL decides the site |
| Extract.Dispatch | src/extraction/extract_data.py:110-144 | no site iff no fragment occurs in the URL; otherwise the site of the first fragment, in table order, that occurs |
| Extract.Seed | src/extraction/extract_data.py:93-106 | the seed has all eleven keys: date, name, pharmacy and url from the row, and the seven scraped keys `None` |
| Extract.SeedDateReadsBack | src/extraction/extract_data.py:94 | the seed's date text parses back to the day the run used |
| Extract.Scrape | src/extraction/extract_data.py:110-142 | the adapter a site dispatches to keeps the context fields and satisfies that site's required list |
| Extract.AdaptersHonest | src/extraction/extract_data.py:110-142 | every adapter keeps the context fields and satisfies its site's required list |
| Extract.ProcessRow | src/extraction/extract_data.py:93-148 | an unknown URL raises `ValueError`; a success comes from the dispatched adapter applied to the seed and then merged |
| Extract.ProcessedRecord | src/extraction/extract_data.py:93-142 | a processed record has every key, keeps the seed's context fields, and holds each required key |
| Extract.Collect | src/extraction/extract_data.py:86-153 | the collected table is a well-formed nested dict |
| Extract.ExtractData | src/extraction/extract_data.py:86-155 | the row loop, with `try`/`except`/`continue` and in-place nested assignment, computes `Collect` |
| Extract.CollectStep | src/extraction/extract_data.py:86-153 | handling one more row takes the dict before it through exactly one loop turn (`Step`) |
| Extract.CollectLookup | src/extraction/extract_data.py:150-153 | the table holds, for each pair, the record of the last row that stored it |
| Extract.LastStoredSomeIff | src/extraction/extract_data.py:146-153 | a pair has an entry iff some row for that pair succeeded |
| Extract.LastStoredIsLastWrite | src/extraction/extract_data.py:151-153 | the stored record comes from a successful row after which no row for the same pair succeeds |
| Extract.CollectedEntries | src/extraction/extract_data.py:86-153 | the table's pairs are exactly those of successful rows, each holding the last such row's record |
| Extract.SkippedRow | src/extraction/extract_data.py:146-148 | a row whose processing raises leaves the table unchanged |
| Extract.StoredRow | src/extraction/extract_data.py:151-153 | a successful row overwrites its own pair and changes no other |
| Extract.UnrecognizedUrlSkipped | src/extraction/extract_data.py:143-148 | a URL without a known fragment leaves the table unchanged |
| Extract.ExtractedRecordsComplete | src/extraction/extract_data.py:93-153 | every stored record has all eleven keys, with the product, pharmacy and run date of its position |
| OldExtract.FirstMatchPrefix | src/old/extract_data.py:134-159 | matching on a prefix of the table agrees with matching on the whole table up to the prefix's end |
| OldExtract.OldDispatchAgrees | src/old/extract_data.py:134-159 | where the old chain picks a site, the later dispatcher picks the same one |
| OldExtract.OldDispatch | src/old/extract_data.py:134-159 | no site iff none of the thirteen fragments occurs in the URL; otherwise the site of the first one that occurs |
| OldExtract.OldDispatchMissesAddedSites | src/old/extract_data.py:134-161 | URLs the old chain misses but the later dispatcher routes go to farmaciajvf, anticonceptivo or farmaloop |
| OldExtract.AddedFragments | src/extraction/extract_data.py:137-142 | every case after the thirteenth names farmaciajvf, anticonceptivo.cl or farmaloop.cl |
| OldExtract.OldSeed | src/old/extract_data.py:125-132 | the old seed holds only date, name and pharmacy |
| OldExtract.OldProcessRow | src/old/extract_data.py:134-161 | an unrecognised URL keeps the seed; otherwise the adapter's return value replaces it |
| OldExtract.OldRecordsLackUrl | src/old/extract_data.py:125-161 | an old record never has a URL and keeps its name and pharmacy |
| OldExtract.HonoursKeepsContext | src/old/extract_data.py:134-159 | a successful adapter that writes only scraped fields keeps the seed's URL, name and pharmacy |
| OldExtract.FirstFailure | src/old/extract_data.py:120-161 | none iff every row succeeds; otherwise the earliest failing row |
| OldExtract.FirstFailureAt | src/old/extract_data.py:120-161 | a failing row after a failure-free prefix is the first failure |
| OldExtract.FirstFailureIs | src/old/extract_data.py:120-161 | the failing row with no failure before it is the first failure, the one whose exception ends the run |
| OldExtract.NoFailureExtends | src/old/extract_data.py:120-161 | a failure-free prefix extended by a succeeding row is still failure-free |
| OldExtract.OldExtractData | src/old/extract_data.py:116-169 | the row loop without `try` computes `OldCollect`: the first exception ends the run, and otherwise every row is stored |
| OldExtract.OldCollect | src/old/extract_data.py:120-161 | succeeds iff every row succeeds, and then gives the stored table; otherwise it raises the first failing row's exception |
| OldExtract.OldUnrecognizedStoresSeed | src/old/extract_data.py:160-166 | a row with an unrecognised URL is stored with just its seed |
| Frames.CellOf | src/transformation/transform_data.py:32-34 | an absent key or `None` becomes NaN, and a string stays text |
| Frames.ColumnsFrom | src/transformation/transform_data.py:32 | the kept columns are the listed keys some record holds, without repeats |
| Frames.KeyIndex | src/transformation/transform_data.py:57-70 | every key has a position in the canonical key list |
| Frames.RecordKeysListEachKeyOnce | src/transformation/transform_data.py:57-70 | the canonical key list holds every key exactly once |
| Frames.Columns | src/transformation/transform_data.py:32 | a frame's columns are exactly the keys some record holds, each once |
| Frames.ColumnsFromAllHeld | src/transformation/transform_data.py:32 | when every listed key is held, the columns are the list itself |
| Frames.ColumnsAllHeld | src/transformation/transform_data.py:32 | records holding every key give the eleven canonical columns |
| Frames.ToFrame | src/transformation/transform_data.py:32 | the frame has one row per record |
| Frames.MapColumnCell | src/transformation/transform_data.py:38-39 | `apply` on one column changes only that column's cells, and changes no row count and no column list |
| Frames.ToDatetimeOfFormatted | src/transformation/transform_data.py:35 | a formatted date in range parses to itself; one out of range becomes NaT |
| Frames.ToDatetime | src/transformation/transform_data.py:35 | the result is a date or NaT; a date stays; text becomes a date iff it parses, and then its date; anything else becomes NaT |
| Frames.ParseDates | src/transformation/transform_data.py:35 | fails with `KeyError` iff the frame has no `date` column |
| Frames.TitleCell | src/transformation/transform_data.py:38-39 | only string cells change, and they keep their length |
| Frames.TitleCellIdempotent | src/transformation/transform_data.py:38-39 | title-casing twice is title-casing once |
| Frames.TitleColumn | src/transformation/transform_data.py:38-39 | fails with `KeyError` iff the column is missing |
| Frames.DisplayNameInjective | src/transformation/transform_data.py:57-70 | the rename map is one-to-one |
| Frames.Rename | src/transformation/transform_data.py:57-70 | the table has one header per column and one cell per column in every row |
| Frames.RenameKeepsCells | src/transformation/transform_data.py:57-70 | distinct columns get distinct display names, and every cell is kept in place |
| Prices.Unformatted | src/transformation/transform_data.py:46 | the text has no `' '`, `'$'` or `','` left, and only characters of the input |
| Prices.PriceDigits | src/transformation/transform_data.py:46-51 | what `int()` sees has no space, sign, comma or dot |
| Prices.CleanPrice | src/transformation/transform_data.py:42-52 | NaN passes through; otherwise it succeeds iff `int()` reads the rewritten text, and then gives an integer |
| Prices.CleanPriceOfText | src/transformation/transform_data.py:46-52 | a text whose rewrite reads as `n` cleans to `n` |
| Prices.CleanPriceOfWhole | src/transformation/transform_data.py:46-52 | an integer cell cleans to itself |
| Prices.CellText | src/transformation/transform_data.py:46 | `str()` of a text cell is the text, of an integer cell a numeral `int()` reads back, and of NaN `"nan"` |
| Prices.WholeDigits | src/transformation/transform_data.py:46-52 | an integer cell hands `int()` exactly its numeral, as written and as intended |
| Prices.CleanPriceOfThousands | src/transformation/transform_data.py:42-52 | `$x.yyy` cleans to `1000 * x + y` |
| Prices.CleanPriceDotted | src/transformation/transform_data.py:46-52 | `$n.ttt` with digit strings `n` and `t` cleans to the value of `n` followed by `t` |
| Prices.CleanPriceOfDigits | src/transformation/transform_data.py:46-52 | a text whose rewrite is a non-empty digit string cleans to that string's value |
| Prices.DottedDigits | src/transformation/transform_data.py:46-51 | `$n.ttt` hands `int()` the digits of `n` followed by `t` |
| Prices.SignedDottedDigits | src/transformation/transform_data.py:46-51 | `'$'` before digits and dots ending in a digit pair hands `int()` the digits with the dots removed |
| Prices.NumeralPlain | src/transformation/transform_data.py:46-51 | the numeral of an integer holds none of the characters the cleaning removes (space, `$`, `,`, `.`) |
| Prices.PlainPriceText | src/transformation/transform_data.py:46-51 | a text without space, `$`, `,` or `.` reaches `int()` unchanged, as written and as intended |
| Prices.CleanPriceIdempotent | src/transformation/transform_data.py:42-52 | cleaning a cleaned price gives it back |
| Prices.DigitsValueAppend3 | src/transformation/transform_data.py:51 | appending a three-digit group multiplies by a thousand and adds the group |
| Prices.GroupedDigits | src/transformation/transform_data.py:51 | a dot-grouped amount read without its dots is the amount |
| Prices.DeleteDotBetween | src/transformation/transform_data.py:51 | removing the dots from `head.tail`, `tail` all digits, removes only `head`'s dots and the separating dot |
| Prices.GroupedStep | src/transformation/transform_data.py:51 | an amount of 1000 or more is written as its thousands, a dot, and its last three digits zero-padded |
| Prices.PadThree | src/transformation/transform_data.py:51 | a number below 1000 padded to three places gives its hundreds, tens and units digits |
| Prices.ParseIntOfDigits | src/transformation/transform_data.py:52 | `int()` of a digit string is its value |
| Prices.GroupedChars | src/transformation/transform_data.py:48 | a dot-grouped amount holds only digits and dots, and ends in two digits |
| Prices.CleanPriceOfPesos | src/transformation/transform_data.py:42-52 | `'$'` or `'$ '` before a dot-grouped amount cleans to the amount |
| Prices.PesosDigits | src/transformation/transform_data.py:46-51 | a peso amount `$n` or `$ n` written with dot thousands hands `int()` its digits without the dots, as written and as intended |
| Prices.UnformattedAfterSign | src/transformation/transform_data.py:46 | removing the characters drops the sign and leaves the rest without commas |
| Prices.PriceDigitsWithoutDecimal | src/transformation/transform_data.py:48-51 | without a trailing `.0`, only the dots are removed |
| Prices.DropTrailingZeros | src/transformation/transform_data.py:49 | the amount with its trailing zero digits dropped is positive and does not end in zero |
| Prices.RStripAppendDropped | src/transformation/transform_data.py:49 | `rstrip` removes a suffix made only of stripped characters |
| Prices.RStripNumeral | src/transformation/transform_data.py:49 | `rstrip('.0')` of a numeral removes its trailing zeros |
| Prices.CleanPriceDecimalQuirk | src/transformation/transform_data.py:48-49 | `str(n) + '.0'` cleans to `n` without its trailing zero digits |
| Prices.DecimalChars | src/transformation/transform_data.py:48 | a numeral followed by `.0` has no space, sign or comma, and ends in `.0` |
| Prices.RStripDecimal | src/transformation/transform_data.py:49 | `rstrip('.0')` of `str(n) + '.0'` is the numeral without its trailing zeros |
| Prices.NumeralReadsBack | src/transformation/transform_data.py:51-52 | a numeral reads back as its number |
| Prices.UnformattedAbsent | src/transformation/transform_data.py:46 | a text without those characters is left unchanged |
| Prices.PriceDigitsWithDecimal | src/transformation/transform_data.py:48-51 | with a trailing `.0`, the trailing run of dots and zeros goes, then the dots |
| Prices.CleanPriceDecimalComma | src/transformation/transform_data.py:46-52 | `'$'` + grouped amount + `',0'` cleans to ten times the amount |
| Prices.UnformattedDecimalComma | src/transformation/transform_data.py:46 | the comma goes and the `0` joins the amount |
| Prices.GroupedTimesTen | src/transformation/transform_data.py:51-52 | a grouped amount followed by `0` reads as ten times the amount |
| Prices.DottedTimesTen | src/transformation/transform_data.py:51-52 | appending `0` before dropping dots multiplies the value by ten |
| Prices.DigitsValueAppendZero | src/transformation/transform_data.py:52 | appending a zero digit multiplies by ten |
| Prices.GroupedExample12990 | src/transformation/transform_data.py:51 | 12990 is grouped as `12.990` |
| Prices.GroupedExample1234 | src/transformation/transform_data.py:51 | 1234 is grouped as `1.234` |
| Prices.CleanPriceExamplePesos | src/transformation/transform_data.py:42-52 | `'$12.990'` cleans to 12990 |
| Prices.CleanPriceExampleComma | src/transformation/transform_data.py:46-52 | `'$1.234,0'` cleans to 12340 |
| Prices.CleanPriceExampleHundred | src/transformation/transform_data.py:48-49 | `'100.0'` cleans to 1 |
| Prices.NumeralExample100 | src/transformation/transform_data.py:48-49 | the float text of 100 is "100.0" |
| Prices.DropTrailingZerosExample100 | src/transformation/transform_data.py:49 | stripping the trailing zeros of 100 leaves 1 |
| Prices.CleanPriceExampleSign | src/transformation/transform_data.py:46-52 | `'$'` leaves the empty text, and `int('')` raises |
| Prices.RStripZeroDecimal | src/transformation/transform_data.py:49 | `'0.0'.rstrip('.0')` is empty |
| Prices.CleanPriceExampleZero | src/transformation/transform_data.py:48-52 | `'0.0'` leaves the empty text, and `int('')` raises |
| Prices.PriceDigitsIntended | src/transformation/transform_data.py:46-51 | with only the final `.0` dropped, what `int()` sees has no space, sign, comma or dot |
| Prices.CleanPriceIntended | src/transformation/transform_data.py:42-52 | NaN passes through; otherwise it succeeds iff `int()` reads the rewrite that drops only the final `.0` |
| Prices.CleanPricesAgree | src/transformation/transform_data.py:48-49 | both versions agree on NaN and on every text that does not end in `.0` |
| Prices.CleanPriceIntendedDecimal | src/transformation/transform_data.py:48-49 | `str(n) + '.0'` cleans to `n` |
| Prices.IntendedDropsDecimal | src/transformation/transform_data.py:48-49 | the intended reading of `d.0`, `d` all digits, keeps every digit of `d` and drops only the `.0` |
| Prices.CleanPriceIntendedOfWhole | src/transformation/transform_data.py:46-52 | an integer cell cleans to itself |
| Prices.CleanPriceIntendedIdempotent | src/transformation/transform_data.py:42-52 | cleaning a cleaned price gives it back |
| Prices.CleanPriceIntendedOfPesos | src/transformation/transform_data.py:42-52 | `'$'` or `'$ '` before a dot-grouped amount cleans to the amount |
| Prices.CleanPriceExampleFloatText | src/transformation/transform_data.py:48-49 | `'12990.0'` cleans to 1299 as written, and to 12990 as intended |
| Prices.NumeralExample12990 | src/transformation/transform_data.py:48-49 | the float text of 12990 is "12990.0" |
| Prices.DropTrailingZerosExample12990 | src/transformation/transform_data.py:49 | stripping the trailing zeros of 12990 leaves 1299 |
| Transform.FlattenRecords | src/transformation/transform_data.py:27-30 | the nested loop appends the records in insertion order, and computes `FlattenAll` |
| Transform.InnerRowsMembers | src/transformation/transform_data.py:29-30 | the inner loop yields exactly the inner dict's records |
| Transform.FlattenedLastMembers | src/transformation/transform_data.py:28-30 | one more product adds exactly that product's records |
| Transform.FlattenedSound | src/transformation/transform_data.py:27-30 | every flattened record is stored under one of the products seen so far |
| Transform.FlattenedComplete | src/transformation/transform_data.py:27-30 | every record stored under a product seen so far is flattened |
| Transform.FlattenAllMembers | src/transformation/transform_data.py:27-30 | the flattened rows are exactly the stored records |
| Transform.FlattenAllSound | src/transformation/transform_data.py:27-30 | every flattened record is stored under some (product, pharmacy) pair |
| Transform.FlattenAllComplete | src/transformation/transform_data.py:27-30 | every record stored under a pair is flattened |
| Transform.CleanRows | src/transformation/transform_data.py:54 | `apply(clean_price)` succeeds iff every price cleans, and then changes only each row's price cell; otherwise it raises the first row's error |
| Transform.CleanRowsTail | src/transformation/transform_data.py:54 | the rows after the first are the tail's rows |
| Transform.FirstUncleanShift | src/transformation/transform_data.py:54 | the first unclean row of the tail is the first unclean row of the whole when the head cleans |
| Transform.CleanPrices | src/transformation/transform_data.py:54 | raises `KeyError` without a price column; otherwise succeeds iff every row's price cleans |
| Transform.TransformData | src/transformation/transform_data.py:13-71 | `transform_data` computes the whole normalisation of the flattened records, with the corrected price cleaner |
| Transform.BeforePrices | src/transformation/transform_data.py:32-39 | before price cleaning, each cell is the record's value after NaN, date and title-case conversion |
| Transform.NormalizeAfterLookups | src/transformation/transform_data.py:35-70 | once the date and title-cased columns exist, the stage is price cleaning followed by the rename |
| Transform.NormalizeMissingLookup | src/transformation/transform_data.py:35-39 | without a date, active-principle or lab-name column, the stage raises |
| Transform.CleanBeforeCleaning | src/transformation/transform_data.py:54 | price cleaning succeeds iff there is a price column and every record's price cleans |
| Transform.NormalizeSucceedsIff | src/transformation/transform_data.py:32-70 | the stage succeeds iff the four used columns exist and every price cleans, with no row dropped |
| Transform.NormalizeEmpty | src/transformation/transform_data.py:32-35 | an empty table raises `KeyError` on `date` |
| Transform.CleanedRow | src/transformation/transform_data.py:54 | each cleaned row is its input row with the price cleaned |
| Transform.CleanedCell | src/transformation/transform_data.py:32-54 | every cleaned cell is the record's final value |
| Transform.MapCellAt | src/transformation/transform_data.py:54 | cleaning changes only the price cell |
| Transform.NormalizeRenames | src/transformation/transform_data.py:54-70 | a result is the rename of the cleaned frame |
| Transform.NormalizeHeader | src/transformation/transform_data.py:57-70 | the headers are the display names of the columns, distinct, with one row per record and one cell per header |
| Transform.NormalizeCells | src/transformation/transform_data.py:32-70 | cell (i, j) is record i's final value for column j |
| Transform.Normalize | src/transformation/transform_data.py:32-70 | without a `date` column it raises `KeyError`; a result has one row per record and one header per column |
| Transform.CleanedHeader | src/transformation/transform_data.py:57-70 | the renamed table has the display names of the columns as distinct headers, one row per record, one cell per header |
| Transform.RenamedCells | src/transformation/transform_data.py:32-70 | after the rename, cell (i, j) is record i's final value for column j |
| Pipeline.ExtractedColumns | src/extraction/extract_data.py:93-106 | extracted records give all eleven canonical columns, and normalisation succeeds iff every price cleans |
| Pipeline.CompleteFirstRecord | src/transformation/transform_data.py:32-70 | a table whose first record holds every key has all eleven columns, and the stage fails exactly on a price that does not clean |
| Pipeline.StoredRecordComplete | src/extraction/extract_data.py:93-153 | every flattened record has all keys and the run's date |
| Pipeline.ExtractedDate | src/transformation/transform_data.py:35 | an extracted record's date column holds the run's day, or NaT outside the timestamp range |
| Pipeline.DateCellOfRun | src/transformation/transform_data.py:35 | a record seeded on a day ends with that day in its date cell, or NaT outside the timestamp range |
| Pipeline.OldStoredLacksUrl | src/old/extract_data.py:125-166 | no record the old extractor stores has a URL |
| Pipeline.OldTableLacksUrl | src/old/extract_data.py:125-166 | the old extractor's table is well formed, and flattening it gives no `url` column |

## Left out

- HTTP fetching, HTML parsing and JSON decoding of page scripts are not modelled. Each adapter receives what the parser would have found: `None` where an element lookup finds nothing, and the decoded value where the site reads a page script.
- Pharmacy.FarmexParse, Pharmacy.BuhochileParse, Pharmacy.MekiParse, Pharmacy.MekiAdapter, Pharmacy.KnopParse, Pharmacy.SalcobrandParse: the page's JSON script is taken as present, matched and decoded (src/utils/pharmacy.py:71, 117, 178-179, 557-558, 742). When it is missing, its pattern does not match or its text is not JSON, the source raises (`AttributeError`, `TypeError`, `KeyError` or a JSON decoding error); the model has no such failure. Salcobrand's missing tracker script, which the source handles by returning `{}`, is modelled.
- Selenium sessions, waits, clicks and `time.sleep` are not modelled. A failed navigation or wait is one flag on the page; the browser lifetime is the `Browser` class.
- `datetime.now()` is a parameter, one day for the whole run.
- Reading the input CSV, the configuration, logging, `print`, `load_data` and the entry points are not part of this model.
- Pandas dtype inference is not modelled. A price column with integers and NaN turns into floats, and `str()` of a float ends in `.0`; the model takes cells as they are given.
- Frame column order is not modelled. The model orders columns by the canonical key order rather than by first appearance in the records.
- `pd.to_datetime` is modelled only on `YYYY-MM-DD` text, which is all the extractor writes; any other text becomes NaT.
- `int()` accepts digits with an optional sign and surrounding whitespace. Underscores and non-ASCII digits are not modelled.
- `str.title()` case-maps ASCII letters and the Latin-1 letters whose case partner is Latin-1; ß, ÿ, µ, ª and º are treated as uncased, unlike Python.
- The `in` tests on element texts use exact substring search. The regular expression of salcobrand is modelled only for its one pattern.
- The older extractor calls the adapters with the current adapters' rules, because the adapters it called then are not part of this model.
- Transform.TransformData: uses the corrected price cleaner (`Prices.CleanPriceIntended`). The stage as written is `Transform.Normalize(records, Prices.CleanPrice)`, and every lemma about `Normalize` holds for both cleaners.
- Pharmacy.AhumadaAdapter, Pharmacy.NovaSaludAdapter, Pharmacy.BuhochileAdapter, Pharmacy.ElQuimicoAdapter: their contracts state the availability rule of each site, not the other fields; those are stated by each site's `Parse` function.

## Findings

| source | as written | input that shows it | evidently intended | confidence | as-written member | corrected member |
|---|---|---|---|---|---|---|
| src/transformation/transform_data.py:48-49 | `prc.rstrip('.0')` strips the whole trailing run of `.` and `0` characters, so it also removes the amount's own trailing zeros | the float price `12990.0` becomes 1299, and `100.0` becomes 1 | drop only the final `.0` | not executed | Prices.CleanPriceExampleFloatText | Prices.CleanPriceIntendedDecimal |
