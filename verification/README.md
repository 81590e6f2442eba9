# Rental and for-sale listing normalisers, rent summary and zip gate

This project models the data core of a small real-estate search page in
Dafny. The page asks for a five-digit zip code. It sends the code to a listing
search service and gets back two decoded JSON responses, one for rentals and
one for sales. Each response is flattened into a table of records. The rental
table is then summarised per (property type, beds, baths) group.

What is modelled:

- **Decoded JSON and Python's object model** (`json.dfy`). Covers null, booleans,
  integers, strings, lists and dicts, with Python truthiness, `dict.get` and
  `str`/`repr`.
- **String operations** (`text.dfy`). Covers `in`, `split(sep)`, `sep.join(...)`
  and `strip()`.
- **Decimal rendering and parsing** (`numerals.dfy`). Covers `str(n)`, the
  thousands-separated `f"{n:,}"` and the integer literals that `pd.to_numeric`
  reads.
- **Status, flags and pets** (`flags.dfy`). Covers the status of a listing
  built from its flags (two flags for rentals, seven for sales), and the
  pets-allowed summary.
- **Scans that overwrite a variable** (`details.dfy`). Covers the detail-block
  scan for the security deposit and availability date, and the advertiser
  scan for the management phone. Each is given both as a declarative "last
  qualifying item" definition and as the loop the program runs, with proofs
  that the two agree.
- **Single fields of a listing** (`fields.dfy`). Covers the photo counts,
  first virtual tour, listing agency, primary image, listing URL, the
  monthly-rent display and the address block.
- **The payload check** (`payload.dfy`). This is the `'properties' in
  payload` test and the loop header, which both normalisers share.
- **The rental normaliser** (`rentals.dfy`). A listing that raises is
  skipped.
- **The for-sale normaliser** (`sales.dfy`). Nothing is caught, so
  readability is a precondition.
- **Order statistics** (`stats.dfy`) and **the rent aggregator**
  (`summary.dfy`), including the in-place coercion of the "Rent" column.
- **The zip-code gate** of the page (`zipgate.dfy`).

A step that can raise and is caught is modelled as an `Option` whose `None`
is the skip. A step that can raise and is not caught is modelled as a
precondition that states exactly when it does not raise. A pandas missing
value (NaN) is modelled as `Null`.

## Model

| member | source | states |
|---|---|---|
| `Json.LookupFirst` | api_functions.py:69-87 | `dict.get` finds nothing exactly when no entry carries the key, and otherwise returns the value of the first entry that does |
| `Json.DictGet` | api_functions.py:69-73 | `.get` on a value that is not a dict raises; on a dict it returns the stored value or the default |
| `Text.SecondPiece` | api_functions.py:179 | `text.split(marker)[1]` is the text right after the first occurrence of the marker, up to the next occurrence or the end, and contains no marker |
| `Text.Split` | api_functions.py:179 | `str.split(sep)` yields at least one piece; `Text.JoinSplit` and `Text.SplitJoin` state that it inverts `sep.join` |
| `Text.SplitSingle` | api_functions.py:179 | the split is the single piece holding the whole text exactly when the separator does not occur |
| `Text.Strip` | api_functions.py:179 | `str.strip()` keeps the slice of the text that starts at its first non-whitespace character, with only whitespace dropped on either side, and the slice neither starts nor ends with whitespace |
| `Text.FindFromMisses` | api_functions.py:179 | the scan that locates the separator skips no occurrence: none lies before the one found, and none at all when it finds nothing |
| `Text.SecondPieceFacts` | api_functions.py:179 | when the first separator is at i, the second piece starts right after it, ends at the end of the text or at the next separator, and contains no separator |
| `Text.StripIdempotent` | api_functions.py:179 | stripping the extracted piece twice is the same as stripping it once |
| `Text.SplitJoin` | api_functions.py:119 | splitting a `', '`-joined list of labels that contain no comma gives the labels back |
| `Text.JoinSplit` | api_functions.py:179 | joining the pieces of a split with the separator restores the text |
| `Numerals.GroupedDigits` | api_functions.py:93 | deleting the commas from `f"{n:,}"` leaves the plain decimal digits of n |
| `Numerals.Digits` | api_functions.py:93 | `str(n)` is a non-empty string of digits that starts with '0' only for zero |
| `Numerals.Grouped` | api_functions.py:93 | `f"{n:,}"` starts with a digit, which is '0' only for zero |
| `Numerals.GroupedShape` | api_functions.py:93 | in `f"{n:,}"` a character is a comma exactly when its distance from the end is a multiple of four; every other character is a digit; the leading digit is '0' only for zero |
| `Numerals.ParseIntOfDecimal` | data_processing.py:15 | the integer literal of any integer is parsed back to that integer |
| `Flags.RentalStatus` | api_functions.py:111-119 | full truth table: "NEW LISTING", "PENDING", both joined by ", " in that order, or "ACTIVE" when neither flag is truthy or flags is not a truthy dict |
| `Flags.SaleStatus` | api_functions.py:398-415 | never empty; "ACTIVE" exactly when none of the seven flags is truthy; otherwise it splits back into the labels of the set flags |
| `Flags.LabelsMembership` | api_functions.py:398-413 | a label is listed exactly when its flag is truthy |
| `Flags.LabelsOrder` | api_functions.py:398-413 | labels of two set flags appear in table order |
| `Flags.LabelsDistinct` | api_functions.py:398-413 | no label is listed twice, so with `Flags.LabelsMembership` and `Flags.LabelsOrder` the list is exactly the set flags' labels in table order |
| `Flags.SummaryIsDefaultIffNoFlag` | api_functions.py:415 | the joined summary equals the default exactly when no flag is set |
| `Flags.PetsSummary` | api_functions.py:141-157 | "No information" exactly when the policy is not a truthy dict or allows none of cats, small dogs or large dogs; otherwise it splits back into the allowed kinds, in that order |
| `Details.DetailLastWins` | api_functions.py:160-184 | when line t of group g is used and no later line is, the deposit or availability is the stripped piece after the marker in that line |
| `Details.DetailDefault` | api_functions.py:160-161 | with no used line anywhere (or no list of details) the field stays "N/A" |
| `Details.MatchingLinesEmpty` | api_functions.py:165-184 | no line is collected exactly when no line of a dict group of the right category, with a list of texts, is a string containing the marker |
| `Details.OverwrittenAppend` | api_functions.py:176-184 | overwriting with one batch of lines and then another is the same as overwriting with both in order |
| `Details.DetailValue` | api_functions.py:160-184 | the deposit or availability is "N/A" (always so when the details are not a list) or a stripped piece, neither starting nor ending with whitespace |
| `Details.ScanLines` | api_functions.py:177-179 | the inner loop leaves the value of the last marked line, or the incoming value when none is marked |
| `Details.ScanDetails` | api_functions.py:160-184 | the loop over detail groups computes exactly the declarative deposit and availability values |
| `Details.PhoneLastWins` | api_functions.py:232-246 | the phone comes from the last qualifying management advertiser |
| `Details.PhoneDefault` | api_functions.py:232-235 | with no qualifying advertiser, or no advertiser list, the phone is "N/A" |
| `Details.ContactPhone` | api_functions.py:232-246 | the phone is "N/A" or the number of some qualifying management advertiser in the list |
| `Details.ScanAdvertisers` | api_functions.py:232-246 | the advertiser loop computes exactly the declarative contact phone |
| `Fields.RentalPhotoCount` | api_functions.py:206-210 | positive exactly when the photos are a list of at least two; one less than the list length for a non-empty list |
| `Fields.SalePhotoCount` | api_functions.py:433-434 | positive exactly when the length is at least two; one less than the length otherwise |
| `Fields.PhotoCountsAgree` | api_functions.py:206-210 | for a list, or for any falsy value, the rental and sale photo counts agree |
| `Fields.GuardedFirstField` | api_functions.py:219-224 | the entry under the key in the first dict of a non-empty list, else "N/A" |
| `Fields.FirstField` | api_functions.py:439-446 | the sale lookup of the first virtual tour or branding entry, on a value that is falsy or a list starting with a dict |
| `Fields.FirstFieldsAgree` | api_functions.py:439-440 | wherever the unguarded sale lookup succeeds it equals the guarded rental lookup |
| `Fields.PrimaryImagesAgree` | api_functions.py:428 | wherever the sale image expression succeeds it equals the rental image lookup |
| `Fields.RentalPrimaryImage` | api_functions.py:194-198 | the "href" of a dict photo, else "N/A" |
| `Fields.SalePrimaryImage` | api_functions.py:428 | "N/A" for a falsy photo; the "href" of a dict photo, or "N/A" without one |
| `Fields.ListingUrl` | api_functions.py:253-261 | "N/A" exactly when the permalink is the string "N/A"; otherwise the site prefix followed by the permalink as `str` renders it |
| `Fields.ListingUrlReadsBack` | api_functions.py:451-452 | dropping the prefix from a listing URL gives the permalink back |
| `Fields.FormatRent` | api_functions.py:89-102 | "N/A" exactly for a null or absent rent; otherwise a leading "$", then the comma-grouped integer, "1" or "0" for a boolean, the string itself, or the repr of a list or dict |
| `Fields.FormatRentReadsBack` | api_functions.py:93 | removing "$" and the commas from an integer rent's display parses back to the rent |
| `Fields.ExtractAddress` | api_functions.py:69-73 | the address block exists exactly when the location and its address are dicts where present |
| `Fields.AddressDefaults` | api_functions.py:69-73 | a listing without location gets "N/A" for line, city, state and zip |
| `Rentals.RentColumn` | api_functions.py:90-102 | the "Rent" column keeps the raw price and shows "N/A" for a null one |
| `Rentals.NormaliseRental` | api_functions.py:64-295 | a listing yields a record exactly when it is a dict whose location, address and description are dicts; each record's rent display reads back to an integer rent; status, pets and URL are consistent |
| `Rentals.RentalRowsAppend` | api_functions.py:64-295 | the table of concatenated listings is the concatenation of the tables, so records keep listing order |
| `Rentals.RentalRowsAllKept` | api_functions.py:64-289 | with every listing readable there is one record per listing, the k-th from the k-th |
| `Rentals.RentalRowsNoneKept` | api_functions.py:293-295 | with no listing readable the table is empty |
| `Rentals.RentalRowsFromListings` | api_functions.py:64-295 | every record comes from some listing, and the table is no longer than the list |
| `Rentals.CollectRentals` | api_functions.py:64-295 | the loop that skips failing listings builds exactly the declarative table |
| `Rentals.RentalTable` | api_functions.py:56-64 | no table exactly when the payload is falsy or lacks "properties"; otherwise every record is consistent |
| `Rentals.StringPropertiesGiveEmptyTable` | api_functions.py:64 | a string or dict under "properties" yields the empty table |
| `Fields.FormatRentThousands` | api_functions.py:93 | a rent of 1500 displays as "$1,500" |
| `Fields.FormatRentNegative` | api_functions.py:93 | a rent of -2500 displays as "$-2,500" |
| `Fields.FormatRentSmall` | api_functions.py:90-102 | a rent of 950 displays as "$950" and a null rent as "N/A" |
| `Payload.FoundMeansDict` | api_functions.py:56-64 | a payload that passes the check without raising is a dict holding "properties" |
| `Sales.NormaliseSale` | api_functions.py:362-476 | status never empty and "ACTIVE" exactly when no flag is set; the price is the stored value, or "N/A" only when the key is absent |
| `Sales.SaleAndRentalAgree` | api_functions.py:352-476 | every listing the sale path reads the rental path reads too, and the two agree on address, beds, baths, area, type, ids, date, image, tour, list photos, permalink and non-null price |
| `Sales.CollectSales` | api_functions.py:362-476 | one record per listing, in order |
| `Sales.SaleTable` | api_functions.py:358-479 | no table exactly when the payload is falsy or lacks "properties"; otherwise one record per listing |
| `Sales.StringPropertiesMustBeEmpty` | api_functions.py:362-366 | a string or dict under "properties" is acceptable exactly when it is empty |
| `Stats.Sort` | data_processing.py:19 | the result is sorted and a permutation of the input |
| `Stats.SortedUnique` | data_processing.py:19 | two sorted permutations of the same values are equal |
| `Stats.Min` | data_processing.py:18 | a member of the group no larger than any member |
| `Stats.Max` | data_processing.py:20 | a member of the group no smaller than any member |
| `Stats.MedianOfSorted` | data_processing.py:19 | for odd size the median is the middle value; for even size it is the mean of the two middle values |
| `Stats.MedianPermutation` | data_processing.py:19 | the median does not depend on the order of the values |
| `Stats.MedianOfArrangement` | data_processing.py:19 | the median of any arrangement is the middle of the sorted arrangement |
| `Stats.Median` | data_processing.py:19 | Min <= Median <= Max |
| `Stats.MedianOddIsValue` | data_processing.py:19 | for an odd number of values the median is one of them |
| `Stats.MinPermutation` | data_processing.py:18 | the minimum does not depend on the order of the values |
| `Stats.MaxPermutation` | data_processing.py:20 | the maximum does not depend on the order of the values |
| `Summary.ToNumeric` | data_processing.py:15 | a cell is numeric exactly when it is an integer or a string that is an optional sign followed by ASCII digits; an integer keeps its value |
| `Summary.ToNumericReadsDecimal` | data_processing.py:15 | a rent written as an integer literal is read back as that integer; the "N/A" of a missing rent becomes missing |
| `Summary.Coerce` | data_processing.py:15 | the written-back cell is a number or missing, and it reads as the same number |
| `Summary.CoerceIdempotent` | data_processing.py:15 | coercing a coerced cell changes nothing |
| `Summary.CoerceRents` | data_processing.py:15 | only the "Rent" column changes; every rent becomes a number or missing with the same numeric reading |
| `Summary.CoerceRentsIdempotent` | data_processing.py:15 | coercing the written-back table again changes nothing |
| `Summary.GroupKeysExact` | data_processing.py:16 | the group keys are distinct, and a triple is a key exactly when some row with a complete key carries it |
| `Summary.GroupRentsMembers` | data_processing.py:16 | a value is a group's rent exactly when some row of the group has it as its numeric rent |
| `Summary.GroupRentsMultiplicity` | data_processing.py:16-17 | every value occurs among a group's rents exactly as often as rows of the group carry it as their numeric rent |
| `Summary.GroupRentsCount` | data_processing.py:16-17 | a group has exactly one rent per row of the group with a numeric rent |
| `Summary.Aggregate` | data_processing.py:17-20 | count is the number of numeric rents; the statistics are missing exactly when the count is 0; min and max are rents of the group bounding all others; Min <= Median <= Max |
| `Summary.SummaryRowFacts` | data_processing.py:16-20 | each summary row's count is the number of rows of its group with a numeric rent; its minimum and maximum are such rows' rents; Min <= Median <= Max |
| `Summary.AggregateOfGroup` | data_processing.py:16-20 | a group's count, minimum, median and maximum are those of any sequence holding each rent as often as rows of the group carry it |
| `Summary.SummaryStatsOfGroup` | data_processing.py:16-21 | each summary row is the aggregate of such a sequence for its group |
| `Summary.RentSummary` | data_processing.py:16-21 | one summary row per group key, no key twice, and the counts add up to the number of rows with a complete key and a numeric rent |
| `Summary.SummaryIgnoresCoercion` | data_processing.py:15-20 | the summary depends only on the numeric reading of each rent |
| `Summary.GenerateIdempotent` | data_processing.py:15-23 | running the aggregator on its own written-back table gives the same table and summary |
| `Summary.GenerateRentSummary` | data_processing.py:15-23 | the caller's table keeps its length, and every rent is a number or missing after the call |
| `Summary.RentSummaryAsWritten` | data_processing.py:15 | as written: fails exactly on an empty table, and agrees with the corrected aggregator otherwise |
| `Summary.EmptyTableCounterexample` | data_processing.py:15 | the empty rental table makes the code as written fail, while the corrected aggregator returns an empty summary |
| `Summary.RentalTableSummary` | data_processing.py:4-23 | the summary of a rental table counts exactly the rental rows with a complete key and a numeric rent |
| `ZipGate.ShowsWarning` | app.py:27-28 | the warning shows exactly for a non-empty entry that is not five ASCII digits |
| `ZipGate.RunsSearch` | app.py:31 | the search runs exactly when the form is submitted with five ASCII digits |
| `ZipGate.WarningExcludesSearch` | app.py:27-31 | the warning and the search never both happen |
| `ZipGate.EmptyTriggersNeither` | app.py:27-31 | an empty entry triggers neither |
| `ZipGate.SubmittedTriggersOne` | app.py:27-31 | a submitted non-empty entry triggers exactly one of the two |

## Left out

- The HTTP fetchers `search_rental_properties` and `search_properties` are not modelled. They do network I/O, and their decoded responses are the normalisers' inputs.
- `print` output is not modelled; it is a side effect only. The DataFrame is modelled as a sequence of records.
- `calculate_investment_metrics` and `geocode_addresses` are imported by the page, but data_processing.py does not define them, so they are not part of this model.
- Streamlit and pydeck rendering, table styling, the CSV download and the map are not modelled, because they are presentation.
- The JSON model has no floats. Float rents and prices, their `f"{x:,}"` rendering and float parsing are not modelled.
- `Summary.ToNumeric`: pandas stores the coerced column as 64-bit integers, or as 64-bit floats once any rent is missing; the model keeps exact integers, so rents beyond 2^53 (or beyond 64 bits) are not rounded or overflowed as pandas would, and its count, minimum, median and maximum can then differ from pandas'.
- `Summary.ToNumeric`: only integers and integer literals (an optional sign, then ASCII digits) are numbers. pandas would also parse decimals and exponents, tolerate surrounding whitespace, and treat booleans as 1 and 0; those all read as missing here.
- `ZipGate.ShowsWarning`: `isdigit` is modelled over ASCII digits only. Python also accepts other Unicode digit characters.
- `Summary.RentSummary`: groups appear in order of first appearance. pandas sorts the groups by key, each key column on its own, with numbers before strings when a column mixes them.
- `Summary.GroupKeysExact`: a list- or dict-valued Property Type, Beds or Baths is unhashable, so pandas' `groupby` raises TypeError; the model groups such rows under their exact value instead.
- `Summary.GroupKeysExact`: keys compare by exact JSON value. Python also counts 1 and True as the same dict key.
- `Json.Repr`: only backslash, the quote, newline, carriage return and tab are escaped. Python escapes other non-printable characters too. This only matters for the display of a list- or dict-valued rent.
- `price_reduced` (api_functions.py:123) is read but never used, so it is not modelled.
- The rental path has inner `try`/`except` blocks for pets, details, image, photos, tour, phone, URL and record append. None of them can raise on decoded JSON, so their fallback values ("Error retrieving pet information", "Error") are not modelled.
- The sale path catches nothing. `Sales.SaleEntryOk` and `Sales.SalePayloadOk` are preconditions describing exactly when it does not raise, not error results.
- The aggregator mutates the caller's DataFrame. This is modelled by returning the coerced table alongside the summary (`Summary.Outcome`).
- JSON objects are taken to have distinct keys, and lookup takes the first match.

## Findings

| source | as written | input that shows it | evidently intended | confidence | as-written member | corrected member |
|---|---|---|---|---|---|---|
| data_processing.py:15 | `df_rent['Rent']` is read unconditionally | a rental search whose listings are all skipped, or whose "properties" list is empty: the normaliser returns `pd.DataFrame([])`, which has no columns, so reading "Rent" raises KeyError | an empty summary for an empty table | not executed; medium | `Summary.RentSummaryAsWritten`, `Summary.EmptyTableCounterexample` | `Summary.GenerateRentSummary` |
