# Tariff impact API and HTS rate update, in Dafny

This project models the logic of the TariffTaxIQ backend:

- **`backend/app/main.py`** (module `TariffApi`, file `tariff_api.dfy`): the tariff impact
  calculation behind `POST /api/calculate`, the product lookup by HS code behind
  `GET /api/products/{hs_code}` and the price history lookup behind
  `GET /api/price-history/{hs_code}`. These are pure functions: the calculation in exact
  `real` arithmetic, the loaded sample data passed in as a value, and the 404 answers as
  `None` / `Failure` values.
- **`backend/app/tariff_service.py`** (module `TariffService`, file `tariff_service.dfy`):
  `find_tariff_rate_by_hs_code` is modelled as a recursive search over the records of a
  fetched Harmonized Tariff Schedule (HTS) document. The product loop of
  `update_sample_data_tariffs` is modelled as a method. It updates an array of product
  records in place and builds the result record (updated list, failed list, counter,
  success flag, error). The fetched document is a parameter; `None` means the fetch failed.
- `py_text.dfy` (module `PyText`) holds the Python string builtins the lookup relies on:
  `upper`, `strip` (with Python's whitespace set), `startswith`, `s[:n]`,
  `replace('%', '')` and `float` on decimal literals. `wrappers.dfy` holds `Option` and `Result`.

Behaviour of the calculation worth knowing, as the code has it:
- there is no input validation and no clamping of any field;
- the pass-through is never derived from the product elasticities; a missing pass-through
  becomes 75 (`DefaultPassThroughIs75`);
- the inventory buffer is accepted but not used (`InventoryBufferIgnored`);
- `tariff_tax_pct` divides the whole tariff amount by the future price, not the part passed
  on: at price 100, markup 50, tariff 25 and the default pass-through it is 400/27 (about
  14.81), where the part passed on would give 100/9 (`TaxPercentUsesWholeTariff`);
- a markup of -100 is not rejected up front; it makes Python divide by zero, modelled as
  `Failure(DivisionByZero)`.

## Model

| member | source | states |
|---|---|---|
| `TariffApi.CalculateTariff` | backend/app/main.py:137-148 | fails exactly when the markup is -100 (the division by zero); otherwise the import cost times (1 + markup/100) gives back the retail price, the tariff amount is the tariff rate's percentage of the import cost, the tariff passed on is the pass-through percentage (75 when none is given) of the tariff amount, and the future price is the retail price plus the tariff passed on |
| `TariffApi.DefaultPassThroughIs75` | backend/app/main.py:137-138 | a request without a pass-through rate gives the same answer as one asking for 75 |
| `TariffApi.InventoryBufferIgnored` | backend/app/main.py:85-92 | the result does not depend on the inventory buffer |
| `TariffApi.ZeroTariffChangesNothing` | backend/app/main.py:142-148 | with a zero tariff rate, tariff amount, tariff passed, tax percent and price increase are 0 and the future price is the retail price |
| `TariffApi.FullPassThroughPassesWholeTariff` | backend/app/main.py:143 | at 100 percent pass-through the tariff passed on equals the tariff amount |
| `TariffApi.PassedWithinTariff` | backend/app/main.py:143 | a pass-through in [0, 100] passes on between 0 and the whole of a non-negative tariff amount |
| `TariffApi.TariffTaxShareOfFuturePrice` | backend/app/main.py:144-145 | tax percent is 0 when the future price is not positive; otherwise tax percent times future price is 100 times the whole tariff amount |
| `TariffApi.PriceIncreaseIsGrowth` | backend/app/main.py:146-148 | price increase percent is 0 when the retail price is not positive; otherwise the future price is the retail price grown by that percentage |
| `TariffApi.WorkedExample` | backend/tests/test_main.py:58-78 | the request of the API test (100, 50, 10, 75, 3) gives import cost 200/3, tariff 20/3, passed 5, future price 105, tax percent 400/63 and increase 5 |
| `TariffApi.TaxPercentUsesWholeTariff` | backend/app/main.py:145 | at price 100, markup 50, tariff 25 and the default pass-through, tax percent is 400/27 and not the passed-on share 100/9 |
| `TariffApi.GetProduct` | backend/app/main.py:119-126 | none (404) exactly when no product of the sample data's `products` list has the HS code; otherwise the first product with exactly that HS code |
| `TariffApi.MatchingHistory` | backend/app/main.py:166 | every entry of the filtered history has the HS code, and each entry with the HS code occurs in it exactly as often as in the history (a multiset equality) |
| `TariffApi.MatchingHistoryAppend` | backend/app/main.py:166 | filtering keeps the order of the history: the filter of `a + b` is the filter of `a` followed by the filter of `b` |
| `TariffApi.MatchingHistoryOne` | backend/app/main.py:166 | a single entry is kept exactly when it has the HS code; with `MatchingHistoryAppend` this fixes the filter entry by entry, in order |
| `TariffApi.MatchingHistoryEmpty` | backend/app/main.py:166-168 | the filter is empty exactly when no entry of the history has the HS code |
| `TariffApi.GetPriceHistory` | backend/app/main.py:161-171 | "not available" exactly without a price history, "not found" exactly when no entry has the HS code; otherwise 1 to 52 entries, the last min(52, n) of the n matching entries in order |
| `PyText.FloatOfDecimal` | backend/app/tariff_service.py:90 | `float` of the decimal rendering of a whole number gives that number back |
| `PyText.ParseFloat` | backend/app/tariff_service.py:90 | a successful parse comes from a non-empty trimmed string, and is negative only when that string starts with `-` |
| `PyText.ParseFloatAccepts` | backend/app/tariff_service.py:90 | `float` succeeds exactly when the trimmed string is an optionally signed decimal literal (digits and at most one point, at least one digit, nothing else), so `2.4¢/KG` is rejected |
| `PyText.ParseUnsignedDecimal` | backend/app/tariff_service.py:90 | an unsigned literal that parses is non-empty and gives a non-negative value |
| `PyText.UnsignedDecimalAccepts` | backend/app/tariff_service.py:90 | the unsigned parser succeeds exactly on the strings of digits and at most one point with at least one digit |
| `PyText.NegatedLiteralParses` | backend/app/tariff_service.py:90 | a minus sign in front of an unsigned literal negates its value |
| `PyText.NegativeWholeParses` | backend/app/tariff_service.py:90 | `float` of `-d` for a non-empty digit string `d` is minus the number `d` spells (`"-5"` gives -5) |
| `PyText.DecimalLiteralParses` | backend/app/tariff_service.py:90 | `float` of `w.f`, for digit strings `w` and `f` not both empty, is w + f/10^len(f) |
| `PyText.WholeLiteralParses` | backend/app/tariff_service.py:90 | `float` of a non-empty digit string is the number it spells |
| `PyText.ParseFloatRejectsWord` | backend/app/tariff_service.py:90 | `float` rejects a trimmed string that starts with neither a digit, a sign nor a point |
| `TariffService.FirstSome` | backend/app/tariff_service.py:68-94 | none exactly when every value is absent; otherwise the first present value, all before it being absent (the fallback chains and the loop's early return) |
| `TariffService.ItemHsCode` | backend/app/tariff_service.py:70 | an item's HS code is `hts_number`, else `hs_code`, else `product_code`, else the empty string |
| `TariffService.ItemRate` | backend/app/tariff_service.py:75 | an item's rate is `duty_rate`, else `tariff_rate`, else `rate`, else the string `'0'` |
| `TariffService.ParseRate` | backend/app/tariff_service.py:77-92 | a number is returned unchanged, a JSON `null` never yields a rate, and a string is read as `ParseRateText` reads it |
| `TariffService.RateTextAccepts` | backend/app/tariff_service.py:82-92 | a string yields a rate exactly when, upper-cased and trimmed, it is `FREE`, `DUTY FREE` or `0` (then 0) or, with its `%` signs dropped and trimmed, an optionally signed decimal literal |
| `TariffService.ForeignCharRateSkipped` | backend/app/tariff_service.py:82-92 | a rate holding, after upper-casing and trimming, a character other than a digit, a point or a sign, and no `%`, is skipped (compound rates such as `2.4¢/KG`) |
| `TariffService.FindTariffRateByHsCode` | backend/app/tariff_service.py:53-94 | none without a `data` list; otherwise none exactly when no item yields a rate for the query's first six characters (the whole query if shorter), else the rate of the first item that does |
| `TariffService.QueryBeyondPrefixIgnored` | backend/app/tariff_service.py:73 | characters of the query after the sixth do not change the result |
| `TariffService.MissingRateIsZero` | backend/app/tariff_service.py:75-84 | an item with no rate field takes the default `'0'` and yields 0 |
| `TariffService.NumericRateUnchanged` | backend/app/tariff_service.py:79-80 | a numeric rate is returned unchanged |
| `TariffService.FreeRateIsZero` | backend/app/tariff_service.py:82-84 | a string that upper-cases and trims to `FREE`, `DUTY FREE` or `0` yields 0 |
| `TariffService.PercentRateParses` | backend/app/tariff_service.py:86-90 | a whole number followed by `%` yields that number (`"5%"` gives 5) |
| `TariffService.WholeRateParses` | backend/app/tariff_service.py:82-90 | a plain non-empty digit string yields the number it spells (`"5"` gives 5, `"0"` gives 0) |
| `TariffService.DecimalRateParses` | backend/app/tariff_service.py:82-90 | a decimal string `w.f` yields w + f/10^len(f) (`"2.5"` gives 2.5) |
| `TariffService.DecimalPercentRateParses` | backend/app/tariff_service.py:82-90 | a decimal percentage `w.f%` loses its `%` and yields w + f/10^len(f) (`"2.5%"` gives 2.5) |
| `TariffService.WordRateSkipped` | backend/app/tariff_service.py:82-92 | a rate string that reads as a word (not a free marker, no `%`), other than inf/nan/infinity (see `PyText.ParseFloat` under Left out), fails to parse, so the item is skipped |
| `TariffService.NullRateSkipped` | backend/app/tariff_service.py:82-92 | the text `None` that `str` makes of a JSON `null` rate fails to parse, so the item is skipped |
| `TariffService.ProcessProduct` | backend/app/tariff_service.py:127-154 | a product is reported as updated exactly when it has an HS code whose rate is found, with its name (possibly `null`), HS code, prior rate (default 0, a `null` kept as `null`) and the found rate; otherwise it is reported as failed, under its name or `Unknown` when the key is absent, carrying the product's own HS code when it has one, with reason "missing HS code" exactly when it has none |
| `TariffService.UpdatedProduct` | backend/app/tariff_service.py:139-141 | only `current_tariff_rate` may change, and it becomes the found rate exactly when the product has an HS code whose rate is found |
| `TariffService.EntriesPartition` | backend/app/tariff_service.py:125-154 | the updated and failed lists together have one entry per product |
| `TariffService.UpdatedEntriesAreFound` | backend/app/tariff_service.py:137-148 | every updated entry carries a non-empty HS code and the rate the lookup finds for it |
| `TariffService.FailedEntriesExplained` | backend/app/tariff_service.py:129-154 | a failed entry lacks an HS code exactly when its reason is "missing HS code"; one with an HS code is a product whose rate is not found |
| `TariffService.UpdateSampleDataTariffs` | backend/app/tariff_service.py:106-161 | if the fetch yields nothing: no product changes, and the result carries the error, `success` false and 0 processed; otherwise every product becomes its updated version, both lists are as specified, `total_processed` is the number of products and `success` is true; the list sizes always add up to `total_processed` |

## Left out

- Rounding: the handler rounds each output with `round(x, 2)`. The model returns the exact values, and IEEE-754 floating point is not modelled.
- HTTP: the FastAPI app, CORS, routing, the root, product-list and tariff-scenarios endpoints, and the status codes of `HTTPException`. "Not found" and failures are `None` / `Failure` values.
- File and network I/O: loading, saving and reloading `sample_data.json`, the global `SAMPLE_DATA` swap, `fetch_current_tariff_rates` and `get_product_tariff_info`. The product list is an array parameter and the fetched document an `Option` parameter. For the update, a sample file without a `products` key is the same as an empty array.
- The catch-all `except Exception` of the update, and exceptions raised outside the lookup's `try`, for example a `data` key holding `null`.
- Pydantic coercion of request fields and `logging` calls.
- `TariffService.ItemHsCode`: HS code fields are modelled as strings only. `str()` of a numeric or `null` HS field is not modelled.
- `TariffService.ParseRate`: JSON booleans, arrays and objects as rates are not modelled (Python treats `true` as 1).
- `PyText.Upper`: upper-casing is modelled for ASCII letters only.
- `PyText.ParseFloat`: only plain decimal literals are modelled. Python's `float` also accepts exponents, `inf`, `nan`, `infinity`, digit underscores and non-ASCII decimal digits (Arabic-Indic, full-width and others); such rate strings are treated as unparsable, so the model skips those items.
- `TariffApi.GetProduct`, `TariffApi.GetPriceHistory`: every product and price point is taken to carry an `hs_code`, and the sample data to carry a `products` list. The `KeyError` that `p["hs_code"]` or `SAMPLE_DATA["products"]` raises on data without them (main.py lines 122 and 166) is not modelled: the model assumes these keys are present.
- `TariffService.ProcessProduct`: an `hs_code` that is not a string is not modelled; `None` stands for an absent key and for `null`, which the loop treats alike. A `name` or `current_tariff_rate` that is a JSON boolean, array or object is not modelled.
