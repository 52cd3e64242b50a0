# price-tracker, modelled in Dafny

`check_price.py` keeps a catalog of tracked products in `products.json`: a
`products` list of records with eight fields (`name`, `url`,
`price_tag_type`, `price_identifier`, `currency_tag_type`,
`currency_identifier`, `target_price`, `current_price`). Three commands edit
the catalog: `add`, `remove` and `edit`. Before `remove` and `edit`, a
helper lists the products with their 0-based positions. `run` and `force-text` visit every product in order,
scrape its current price, store a changed price in `current_price`, write the
catalog back, and send one text message whose body collects one segment per
product when some price changed or when the text is forced.

The model is split into five modules:

- `Wrappers` (wrappers.dfy): `Option` and `Result`.
- `Numbers` (numbers.dfy): `ParseNumber`, the plain decimal texts that Python's
  `float()` accepts, and the digit rendering of whole numbers it reads back.
- `Catalog` (catalog.dfy): records as maps from field name to a number or a
  text, the eight-field invariant, Python's negative list indices, and the
  catalog edits `Added`, `Removed` and `Edited` as functions with their
  error cases (`ValueError`, `IndexError`, `KeyError`). `HTTPError` is the
  run's exception for a page with an error status.
- `PriceCheck` (price_check.dfy): one scrape outcome per product, the
  per-product update, the message segments, the first exception that ends a
  run, and `Run`, the whole check as a function of the catalog and the
  scrape outcomes.
- `Tracker` (tracker.dfy): class `ProductStore`, whose field `products` is
  the catalog file's list. Each command loads it into a local list, changes
  that list and writes it back. `RunCheck` keeps the source's loop, with its
  `message_body` and `price_changed` variables, and is proved equal to `Run`.

An exception in the source ends the command before the file is written. In
the model it is a `Failure` that leaves `products` as it was and sends
nothing.

The parameter list that `edit` prints (check_price.py:110-117) names seven
fields. The code accepts any key the record already has, including
`current_price`. The model follows the code.

## Model

| member | source | states |
|---|---|---|
| Numbers.ParseNumber | check_price.py:62 | a text that parses with a leading `-` gives a value <= 0, any other parsed text a value >= 0 |
| Numbers.NumberTextIsNumeric | check_price.py:62 | every text accepted as a target price is non-empty and made only of digits, `.`, `+` and `-` |
| Numbers.WholeNumberRoundTrip | check_price.py:62 | the whole number the prompt asks for, typed as digits with or without a `-`, is read back as exactly that number |
| Numbers.UnsignedDecimal | check_price.py:171 | digits, a point and more digits are read as the whole part plus the fraction's digits over the matching power of ten |
| Numbers.DecimalValue | check_price.py:171 | a decimal text such as `12.50` is read as its whole part plus its fraction |
| Numbers.NegativeDecimalValue | check_price.py:171 | the same decimal after a `-` is read as its negation |
| Catalog.NewRecord | check_price.py:65-68 | the new record has exactly the eight catalog fields |
| Catalog.Added | check_price.py:56-76 | add fails with ValueError exactly when the target text is not a number; otherwise the list grows by one at the end, the earlier products are unchanged, and the new record holds the six prompted texts, the target price and a current price one above it; every record keeps the eight fields |
| Catalog.NormalizeIndex | check_price.py:95 | an index selects a product exactly when -n <= i < n; a negative index counts from the end (the selected position is congruent to i modulo n) |
| Catalog.Removed | check_price.py:90-101 | remove fails with IndexError exactly for an index out of range; otherwise the selected product is deleted, the products before it are unchanged and those after it move up one place, and the reported name is the deleted product's name |
| Catalog.Edited | check_price.py:105-125 | edit fails with IndexError for an index out of range and with KeyError for a parameter the record does not have; otherwise the old value is reported, the field now holds the typed text, and every other field and every other product is unchanged |
| Catalog.RemoveUndoesAdd | check_price.py:73-96 | removing the last product (index -1 or n) right after an add gives back the previous catalog and reports the added name |
| Catalog.EditLastWriteWins | check_price.py:122 | two edits of the same field of the same product leave only the second value |
| PriceCheck.TypedPriceIsRead | check_price.py:121-171 | a price typed at `edit`, stored as text, is read by the check as the number it spells, whole or with a fraction |
| PriceCheck.EditedPriceIsRead | check_price.py:119-173 | after `edit` stores a typed decimal price, the next check of that product raises only for an error status or a missing amount, and counts the price as changed exactly when the amount found differs from the typed number |
| PriceCheck.Updated | check_price.py:169-173 | the checked record keeps the eight fields |
| PriceCheck.UpdatedTouchesOnlyPrice | check_price.py:167-173 | a check changes at most `current_price`; a fetch failure or a missing price element changes nothing; after a found price the stored value reads back as the amount; the record changes exactly when the found amount differs from the stored price |
| PriceCheck.Checked | check_price.py:145-173 | checking keeps the number of products and the eight fields of each |
| PriceCheck.CheckedTouchesOnlyPrices | check_price.py:145-173 | the same per-product facts hold at every position of the checked list |
| PriceCheck.FirstCrash | check_price.py:154-171 | the run's exception is the one raised at the first product whose page has an error status (HTTPError), whose amount is missing (TypeError) or whose stored price is not a number (ValueError), and no product before it raises one |
| PriceCheck.Run | check_price.py:130-188 | a run fails exactly when some product raises; otherwise it writes the checked catalog, and sends the message body when the text is forced or some price changed, and nothing otherwise |
| PriceCheck.RunStopsAtFirstCrash | check_price.py:145-171 | when product i raises and no earlier one did, the run ends with product i's exception |
| PriceCheck.ErrorStatusAbortsRun | check_price.py:154 | a page with an error status anywhere in the catalog ends the run: nothing is written back and no text is sent |
| PriceCheck.ConcatAppend | check_price.py:151-177 | appending one more segment to the body appends its text |
| PriceCheck.BodyStep | check_price.py:151-177 | the body after product i is the body before it followed by product i's segment |
| PriceCheck.NotifyExactlyWhenForcedOrChanged | check_price.py:169-188 | a completed run sends a message exactly when forced or some price changed, the message is the collected body, and a price changed exactly when the written catalog differs from the loaded one |
| PriceCheck.NoChangeNoMessage | check_price.py:171-188 | an unforced run in which no amount differs from its stored price sends nothing and writes the catalog back unchanged |
| PriceCheck.SecondRunIsQuiet | check_price.py:169-188 | a second unforced run that scrapes the same prices changes nothing and sends nothing |
| PriceCheck.ForcedRunSends | check_price.py:182-188 | a forced run that completes always sends the body |
| PriceCheck.SingleProductBody | check_price.py:177 | the body of a one-product run is that product's segment |
| PriceCheck.PriceDropScenario | check_price.py:167-188 | one product stored at 10.0 whose page shows $9.99: the run stores 9.99 and sends exactly the line `<name> costs $9.99. Old Price: $<10.0 as printed>` followed by a blank line |
| Tracker.ProductStore.constructor | check_price.py:136-137 | the store holds the loaded catalog, whose records have the eight fields |
| Tracker.ProductStore.ListProducts | check_price.py:21-33 | row i of the listing is position i, counted from 0, beside product i's name |
| Tracker.ProductStore.AddProduct | check_price.py:50-78 | the command fails and writes nothing exactly when `Added` fails; otherwise the catalog becomes `Added`'s list |
| Tracker.ProductStore.RemoveProduct | check_price.py:89-101 | the command fails and writes nothing exactly when `Removed` fails; otherwise the catalog and the reported name are `Removed`'s |
| Tracker.ProductStore.EditProduct | check_price.py:103-127 | the command fails and writes nothing exactly when `Edited` fails; otherwise the catalog and the reported old value are `Edited`'s |
| Tracker.ProductStore.RunCheck | check_price.py:130-188 | the loop fails and writes nothing exactly when `Run` fails, with the same exception; otherwise the written catalog and the sent message are `Run`'s |
| Tracker.CheckProduct | check_price.py:146-177 | one pass of the loop raises exactly the product's exception (HTTPError for an error status, TypeError for a missing amount, ValueError for a stored price that is not a number); otherwise it yields the updated record, whether the price changed, and the product's message segment |

## Left out

- Reading and writing `products.json`: the loaded list is the store's `products` and the written list is its new value. A missing or unreadable file is not modelled. The same goes for the unused `open` at check_price.py:84-87, which only prints a message.
- Prompts, `print` output and the help text (check_price.py:10-19), as well as the command-line dispatch (check_price.py:193-211).
- `show_product_info` (check_price.py:35-48) only prints the catalog as a table; it changes nothing.
- The `int()` conversion of the typed index (check_price.py:90, 105): the model takes the index as an integer. A text that is not an integer raises ValueError before anything is written.
- Fetching the page, parsing the HTML and the price_parser library: each product's outcome is given as a `Scrape` value. The outcomes are a fetch failure, an error status, no price element, an element without an amount, or an amount with the text of its decimal and its currency. `raise_for_status` at check_price.py:154 returns nothing or raises HTTPError outside the `try`. An error status therefore ends the run, and the branch at check_price.py:155-157 is never taken.
- The currency fallback at check_price.py:175-176 is library behaviour. The model receives the final currency text, so the IndexError when no currency element exists is not modelled.
- Sending the text through Twilio: the model returns the message body, or no message.
- Floating point: prices are `real`, so IEEE rounding is not modelled. Python's rendering of a stored float is a parameter `showFloat` of the run. The rendering of the scraped decimal comes with the scrape outcome.
- Numbers.ParseNumber: accepts only `[+|-][digits][.digits]` with at least one ASCII digit. It does not model Python `float()`'s exponents, `inf`, `nan`, surrounding whitespace, underscores or non-ASCII decimal digits.
- Records lacking one of the eight fields (a hand-edited file) would make `remove` and `run` raise KeyError. The model keeps the eight-field invariant (`Valid`) instead, which every command preserves.
- Tracker.ProductStore.RunCheck: requires one scrape outcome per product.
- Concurrent runs against the same file.
