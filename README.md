# carburants: a verified model of the fuel-station feed pipeline

`carburants.py` downloads the French open-data feed of fuel stations, turns its
station records (`pdv` elements) into a snapshot keyed by station id, and sends
the stations to an Elasticsearch index. This project models the core of that
pipeline in Dafny and proves what it does:

- `_extract_pdv_data`: the loop over the raw records that fills a
  `defaultdict` with normalised stations (`extract.dfy`, properties in
  `extract_properties.dfy`);
- `_get_prices`: a station's price section to a map from fuel name to price
  (`prices.dfy`);
- `_format_for_bulk` from the point where the snapshot is in memory, and the
  loop of `write_actions_for_bulk` that writes a bulk-request file (`bulk.dfy`);
- the choice of the daily or yearly archive from the command's data type in
  `_get_carburants_xml` (`fetch.dfy`);
- the two stages together (`pipeline.dfy`) and worked examples on concrete
  records (`scenarios.dfy`).

Support modules: `wrappers.dfy` (`Option`, `Result`), `text.dfy` (Python's
`str.lower()` and the part of `float()` the feed uses), `records.dfy` (raw
records, stations, snapshots, actions).

## How the model reads the code

- Every loop of the modelled code is a method with a loop, proved equal to a function
  that folds over the input from the left (`GetPrices` / `ListPrices`,
  `ExtractPdvData` / `Extract`, `FormatForBulk` / `BulkActions`,
  `WriteActionsForBulk` / `BulkLines`). The properties are proved about those
  functions.
- A raw record is the parser's dictionary: each key it may lack is an `Option`,
  the `fermeture` key a boolean, and `prix` either one entry or a list of entries.
- An exception is a `Result` failure: `KeyError(key)` for a missing key and
  `ValueError(text)` for a text `float()` refuses. What the source catches is
  caught in the model and nothing else is.
- The `defaultdict` is a `Snapshot`: the map of stations and its keys in
  insertion order, which is the order Python iterates, dumps and reloads it.
- Numbers are exact reals: `float(x) / 100000` and `float(x) / 1000.0` are the
  parsed numeral divided exactly.

## Behaviour kept as the code has it

In several places the code does something other than what it appears meant
to do. The model follows the code in each of them:

- A coordinate that does not parse leaves a partial `localisation` (`{}` or
  `{"lat"}`) rather than none. The bulk formatter then drops the station,
  while the snapshot keeps it.
- A missing `@latitude`, or a missing `@longitude` after a latitude that
  parses, raises `KeyError`, which nothing catches: only `ValueError` is caught
  around the coordinates.
- A `@valeur` that `float()` refuses raises `ValueError` out of `_get_prices`.
  Only `KeyError` is caught around the price step, so this aborts the whole
  extraction rather than just leaving the prices out.
- The single-entry branch of `_get_prices` returns an empty map. It writes the
  price under the literal key `'@nom'` of the entry it was given, which
  nothing reads afterwards. The model returns that written value beside the map.
- `'@id'` is read before the closure test, so a closed record without an id
  aborts the extraction too.
- Records that share an id are merged, not replaced. The entry keeps its
  place from the first open record. Every field except `prix` comes from the
  last open record. `prix` comes from the last open record whose price section
  parsed, because a record without prices leaves the earlier `prix` in place.
- Python evaluates the right-hand side of `d[k] = v` first. In a price list, a
  missing or malformed `@valeur` is therefore reported before a missing `@nom`.

## Model

| member | source | states |
|---|---|---|
| Text.Lower | carburants.py:140-141 | `str.lower()`: same length; no upper-case letter is left; every other character is unchanged; A–Z and À–Þ (except ×) become the character whose code point is 32 higher; the Kelvin sign becomes 'k' |
| Text.LowerIdempotent | carburants.py:140-141 | lower-casing a lower-cased text changes nothing |
| Text.ParseNumber | carburants.py:136-137 | `float()` accepts only a non-empty text made of digits, signs and a point; the empty text is refused; a leading '-' negates the unsigned numeral after it, a leading '+' leaves it as it is; only a leading '-' gives a negative value |
| Text.ParseDecimal | carburants.py:136-137 | `float()` reads the numeral `str(n)` of a natural n back as n |
| Text.ParseScaled | carburants.py:136-137 | `float()` reads the numeral of a natural n with a point put k digits from its end (k up to the numeral's length, so ".5" and "12." included) as n / 10^k |
| Text.ParsePointed | carburants.py:136-137 | `float()` reads any run of digits w, a point and a run of digits f (not both empty, leading zeros allowed) as the number the digits of w then f denote, divided by 10 to the power of the length of f |
| Text.ParseNegativeDecimal | carburants.py:136-137 | `float()` reads a '-'-prefixed numeral as the negated value |
| PriceParser.EntryPrice | carburants.py:175 | one list entry succeeds exactly when it has a parsable '@valeur' and a '@nom'; it raises `ValueError` exactly when '@valeur' is there and does not parse |
| PriceParser.GetPrices | carburants.py:168-176 | `_get_prices` returns the list branch's map or the exception of its first failing entry; a single entry gives the empty map plus the value written under '@nom' (`CleanPrices`, `WrittenNom`) |
| PriceParser.ListPricesFailureSticks | carburants.py:174-175 | once an entry raises, the rest of the list is not looked at |
| PriceParser.ListPricesSucceeds | carburants.py:174-175 | the list succeeds exactly when every entry succeeds |
| PriceParser.ListPricesFirstError | carburants.py:174-175 | a failing list raises the exception of its first failing entry, every earlier entry having succeeded |
| PriceParser.ListPricesKeys | carburants.py:173-176 | the fuel names are exactly the entries' '@nom' values |
| PriceParser.ListPricesLastWins | carburants.py:173-176 | each fuel's price is '@valeur'/1000 of the last entry with that name |
| PriceParser.SingleEntryPrices | carburants.py:171-176 | a single entry with a parsable '@valeur' gives the empty map and writes '@valeur'/1000 under '@nom' |
| Extraction.Coordinates | carburants.py:134-139 | only a missing attribute aborts the coordinate step; a text that does not parse never does |
| Extraction.LocalisationShape | carburants.py:134-139 | `localisation` has keys {}, {lat} or {lat, lon}; lat exactly when the latitude parses, lon exactly when both parse; values divided by 100000; two keys exactly when both coordinates parse |
| Extraction.NewPrix | carburants.py:142-145 | 'prix' is set exactly when the record has a price section that parses; a `KeyError` is swallowed; a `ValueError` propagates |
| Extraction.Normalize | carburants.py:133-146 | an open record gives a station exactly when '@cp', the coordinate step, 'adresse', 'ouverture'/'@saufjour' and 'ville' succeed and the price step raises no `ValueError`; cp and ville are copied, adresse and saufjour lower-cased, localisation as above, prix new or kept from before |
| Extraction.StorePdv | carburants.py:131-146 | one pass of the loop body reads the fields in the source's order and equals one step of the fold (`Step`) |
| Extraction.ExtractPdvData | carburants.py:127-147 | `_extract_pdv_data` equals the fold over the records, and its snapshot lists each id once, exactly the ids it maps |
| Extraction.ExtractFailureSticks | carburants.py:130-146 | once a record raises, the extraction raises that exception |
| Extraction.ExtractValid | carburants.py:129-133 | every snapshot the loop builds lists each id once and lists exactly the ids it maps |
| ExtractProperties.FirstOccurrences | carburants.py:129-133 | the first occurrences of a list hold exactly its elements |
| ExtractProperties.ExtractUnfold | carburants.py:130 | a successful extraction is the extraction of all but the last record followed by one step |
| ExtractProperties.StepOther | carburants.py:131-132 | a closed record, or one with another id, leaves an entry alone |
| ExtractProperties.StepOpen | carburants.py:131-146 | an open record stores its normalised body under its id, keeping the earlier 'prix' |
| ExtractProperties.ExtractKeys | carburants.py:130-133 | an id is in the snapshot exactly when some open record carries it |
| ExtractProperties.ClosedOnlyEmpty | carburants.py:130-132 | a feed of closed stations gives an empty snapshot |
| ExtractProperties.ExtractFields | carburants.py:133-146 | cp, ville, lower-cased adresse and saufjour, and localisation come from the last open record with the id |
| ExtractProperties.ExtractPrixAbsent | carburants.py:142-145 | a station has no 'prix' exactly when none of its open records had a price section that parsed |
| ExtractProperties.ExtractPrixLastPriced | carburants.py:142-145 | otherwise 'prix' is that of the last open record whose section parsed |
| ExtractProperties.StepKeepsPrix | carburants.py:142-145 | a record that brings no parsed price for an id leaves that id's 'prix' as it was |
| ExtractProperties.StepSetsPrix | carburants.py:142-143 | an open record whose prices parse sets 'prix' for its id |
| ExtractProperties.ExtractOrder | carburants.py:129-133 | the snapshot iterates ids in the order of their first open record |
| ExtractProperties.ExtractFirstFailure | carburants.py:130-146 | a failing extraction raises the exception of the first record that raises |
| ExtractProperties.PriceValueErrorAborts | carburants.py:142-145 | a malformed price in an otherwise readable open record aborts the whole extraction with `ValueError` |
| Bulk.FormatForBulk | carburants.py:157-166 | `_format_for_bulk` returns the actions of the fold over the snapshot's ids |
| Bulk.BulkMembership | carburants.py:157-158 | an id has an action exactly when it is in the snapshot and its localisation has two keys |
| Bulk.BulkShape | carburants.py:159-165 | every action carries the index name, the type, an id of the snapshot, and that station's body with the id added |
| Bulk.BulkOrder | carburants.py:157-165 | the actions follow the snapshot's iteration order |
| Bulk.UntilQuote | carburants.py:107 | splits a line at its first double quote |
| Bulk.UntilQuoteSplit | carburants.py:107 | a quote-free text followed by a quote splits there |
| Bulk.MetaLineRoundTrip | carburants.py:107 | the metadata line gives back its index, type and id when none holds a double quote |
| Bulk.WriteActionsForBulk | carburants.py:104-108 | the loop writes the lines of the fold over the snapshot's ids: a metadata line (`MetaLine`) then a body line for each id, in order |
| Bulk.BulkLinesAt | carburants.py:104-108 | 2n lines for n stations, no filter: line 2k is the k-th id's metadata line, line 2k+1 its body with the id added |
| Fetch.SelectUrl | carburants.py:114-117 | "week" in any case selects the daily archive, "year" the yearly one; anything else leaves `url` unbound |
| Fetch.WeekSpellings | carburants.py:114-117 | "week", "WEEK" and "Wee" + Kelvin sign select the daily archive, "Year" the yearly one, "day" none |
| Pipeline.ExtractCovers | carburants.py:129-133 | every id of an extracted snapshot has a body, so both bulk writers can read it |
| Pipeline.IndexedIffBothCoordinates | carburants.py:157-158 | a station gets an action exactly when both coordinates of its last open record parse |
| Scenarios.Parse154900 | carburants.py:175 | the price text "154900" parses to 154900 |
| Scenarios.Parse139500 | carburants.py:175 | the price text "139500" parses to 139500 |
| Scenarios.Parse4857900 | carburants.py:136 | the latitude text "4857900" parses to 4857900 |
| Scenarios.Parse230500 | carburants.py:137 | the longitude text "230500" parses to 230500 |
| Scenarios.Parse4885000 | carburants.py:136 | the latitude text "4885000" parses to 4885000 |
| Scenarios.ParseComma | carburants.py:137-139 | a decimal comma makes `float()` refuse the text |
| Scenarios.TwoFuelPrices | carburants.py:173-176 | SP98 at "154900" and Gazole at "139500" give 154.9 and 139.5 |
| Scenarios.Sp98Price | carburants.py:175 | the entry SP98 at "154900" gives ("SP98", 154.9) |
| Scenarios.GazolePrice | carburants.py:175 | the entry Gazole at "139500" gives ("Gazole", 139.5) |
| Scenarios.OneFuelPrices | carburants.py:174-176 | a one-entry list gives that fuel's price |
| Scenarios.ListPricesSnoc | carburants.py:174-175 | one more entry that succeeds adds its price to the map |
| Scenarios.CompleteCoordinates | carburants.py:134-137 | "4857900" and "230500" give lat 48.579 and lon 2.305 |
| Scenarios.ClosedFirst | carburants.py:130-132 | a closed record alone gives the empty snapshot |
| Scenarios.ExtractSnoc | carburants.py:130 | extracting one more record is one more step |
| Scenarios.StepNew | carburants.py:131-146 | an open record with a new id is appended to the iteration order with its normalised body |
| Scenarios.CompletePrix | carburants.py:142-145 | a one-entry price list gives that fuel's price |
| Scenarios.CompleteNormalizes | carburants.py:133-146 | the complete record is normalised with a two-key `localisation` |
| Scenarios.CompleteStep | carburants.py:131-146 | a complete record is stored with both coordinates |
| Scenarios.CompleteSecond | carburants.py:130-146 | after a closed and a complete record, the snapshot holds the complete station only |
| Scenarios.BadLongitudeStep | carburants.py:134-139 | a record whose longitude has a decimal comma is stored with its latitude alone |
| Scenarios.BadLongitudeCoordinates | carburants.py:134-139 | a longitude with a decimal comma leaves `localisation` holding the latitude alone |
| Scenarios.BadLongitudeNormalizes | carburants.py:133-146 | that record is still normalised, with a one-key `localisation` |
| Scenarios.BadLongitudeThird | carburants.py:130-146 | the three-record feed gives two stations, in feed order |
| Scenarios.OneAction | carburants.py:157-166 | of those two stations only the complete one gets an action |
| Scenarios.SmallFeed | carburants.py:127-166 | a closed, a complete and a malformed-longitude record give a two-station snapshot and one action |

## Left out

- Command-line wiring: the click group, the commands and their option
  defaults. This includes the argument of `write_actions_for_bulk`, which is
  named `carburant_data` while the function's parameter is `carburants_data`,
  and which is a path rather than a dictionary. The model starts the loop from
  an in-memory snapshot.
- The download, the ZIP extraction, the directory listing and the XML parsing
  in `_get_carburants_xml`. These are network, file and library calls. The
  model takes the parser's output as a sequence of `RawPdv` records, with a
  price section already told apart as one entry or a list.
- The JSON dump of the snapshot and the file read at the start of
  `_format_for_bulk`, which keeps only the file's last line. The model starts
  from the snapshot in memory.
- `json.dumps` of a body line: a library call, kept abstract as `Body(doc)`.
  The order of keys inside a body is not modelled.
- Elasticsearch client calls (`indices.create`, `helpers.bulk`) and the
  `ES_CARBURANT_MAPPING` constant. These are an external service and inert
  configuration.
- Text.ParseNumber: models Python's `float()` only on plain decimal numerals
  (optional sign, digits, optional point). Exponents, `inf`/`nan`, surrounding
  whitespace and underscores are refused, because the feed's numbers have none
  of them. Values are exact reals, not IEEE doubles.
- Text.Lower: models `str.lower()` on the Latin-1 characters the feed's
  ISO-8859-1 text can hold, plus the Kelvin sign. Other Unicode case mappings
  are out of scope.
- PriceParser.GetPrices: the write into the argument's '@nom' key is returned
  as a value instead of being made in place. The raw record is not read again
  afterwards, so no caller can observe the difference.
- Extraction.StorePdv: the source writes the entry field by field. The model
  stores the whole body once, at the end. An aborted pass leaves a partial
  entry in the source's dictionary, but the exception discards that dictionary,
  so the difference cannot be seen.
- A `TypeError` or `AttributeError` from a value of the wrong type, such as a
  `None` attribute or a non-string `adresse`, is not modelled. Every present
  value is taken to be a string.
