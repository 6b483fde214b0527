# shopping-de-preco in Dafny

This project models the price-comparison scripts of shopping-de-preco. The
three scripts search Mercado Livre, Amazon and Magazine Luiza for a product.
Each one reads the prices off the result pages and writes them out side by
side:

- `multiplos-skus.py` reads a list of (EAN, product term) rows. It searches
  Mercado Livre by term and the other two sites by EAN. It normalises every
  price text with `clean_price`, keeps the three cheapest prices per site,
  and writes one spreadsheet row per EAN with the prices formatted as
  `R$ 1234,56`.
- `poucos-skus.py` searches the three sites once, for one fixed EAN and one
  fixed term. It keeps the price texts as text and writes a plain-text
  report.
- `tempCodeRunnerFile.py` reads the same list of rows. It keeps the price
  texts as text and writes one spreadsheet row per input row.

The browser is not modelled. Each search of a site yields a `Pages.Fetch`:

- `Timeout`: the wait for the price selector timed out.
- `Failed`: another error was raised while the page was read.
- `Page(items, priceTexts)`: the page was read.

A `Pages.Item` holds the texts of the sub-elements that a script looks up
inside one result listing. A sub-element that is absent is `None`. Looking
one up with `find_element` raises, and the script skips that listing. A run
is given a `Pages.Web`, a function from (site, search term) to `Fetch`.

Prices are exact `real` numbers standing for Python floats. Strings are
`seq<char>`.

Modules:

- `Common`: the string, list and number helpers.
- `PriceText`: `clean_price`, together with a description of its result in
  terms of the input text alone.
- `Pages`: fetch outcomes, listings and rows.
- `Sorting`: `sorted(...)[:n]`.
- `MultiplosSkus`, `PoucosSkus` and `TempCodeRunner`: one module per script.

Three behaviours of the scripts are easy to misread:

- `clean_price("1.234")` is `1.234`: a text with a single comma or point
  keeps it as the decimal point (`PriceText.CleanPriceOneSeparator`).
- In `multiplos-skus.py`, a timed-out wait yields `"Não encontrado"`, the
  same label as an empty result. Any other error yields `"Erro na busca"`.
- In `poucos-skus.py` and `tempCodeRunnerFile.py`, a timeout is caught like
  any other exception and yields `"Erro ao buscar preços"`. An empty result
  yields `"Nenhum preço encontrado"`.

## Model

| member | source | states |
|---|---|---|
| PriceText.CleanPrice | multiplos-skus.py:50-73 | `clean_price`: a value it returns is never negative (the filter removes any minus sign) |
| PriceText.ParsedText | multiplos-skus.py:59-71 | the text handed to `float()` holds only digits and points, so `float()` cannot meet a character it rejects other than a misplaced point |
| PriceText.CleanPriceValue | multiplos-skus.py:50-73 | for every text: no number when it holds no digit, otherwise all its digits read as one integer scaled down by the number of fraction digits the separator rules give |
| PriceText.CleanPriceFails | multiplos-skus.py:56-57 | `None` exactly when the argument is not a string or the text holds no digit |
| PriceText.CleanPriceTwoDigitFraction | multiplos-skus.py:62-66 | with several separators and two digits after the last one, all the digits read as hundredths |
| PriceText.CleanPriceThousandsOnly | multiplos-skus.py:67-68 | with several separators and another length of last segment, every separator is dropped and the digits read as an integer |
| PriceText.CleanPriceOneSeparator | multiplos-skus.py:59-71 | with one comma or point, it is the decimal point: the digits scaled by the number of digits after it |
| PriceText.CleanPriceNoSeparator | multiplos-skus.py:59-71 | with no separator, the digits read as an integer |
| PriceText.ComposedPrice | multiplos-skus.py:102-108 | a text `whole,cc` with two cent digits reads as the digits of the whole part plus cc hundredths, whatever separators the whole part holds |
| PriceText.TwoDigitsAfterSeparators | multiplos-skus.py:62-71 | with one or more separators and two digits after the last one, all the digits read as hundredths |
| PriceText.ComposedValue | multiplos-skus.py:106-108 | a text whose digits are the whole-part digits followed by two cent digits, which form its last group, reads as the whole part plus the cents in hundredths |
| PriceText.CleanedFacts | multiplos-skus.py:59-61 | after the filter and the comma replacement, only digits and points remain, the points stand for every comma and point of the input, and the last segment is the input's trailing digits |
| PriceText.SplitDotsJoin | multiplos-skus.py:64-66 | splitting on points and joining with points gives back the text |
| Sorting.Sort | multiplos-skus.py:124 | `sorted`: ascending, a permutation of its input |
| Sorting.Insert | multiplos-skus.py:124 | inserting into an ascending list keeps it ascending and adds exactly that element |
| Sorting.SmallestPrefix | multiplos-skus.py:124 | `sorted(s)[:n]` is ascending, has `min(n, len(s))` elements of `s`, and no element left out is smaller than one kept |
| Pages.Take | multiplos-skus.py:96 | `xs[:n]` has `min(n, len(xs))` elements and is a prefix of `xs` |
| Pages.DistinctHeaders | multiplos-skus.py:161-162 | with distinct site names other than "EAN" and "Produto", the headers "EAN", "Produto" and the sites are distinct |
| Pages.ConfiguredSitesValid | multiplos-skus.py:134-147 | the three configured sites meet that condition |
| Pages.ResultRow | multiplos-skus.py:161-180 | a result dict built by the sites loop has two cells more than there are sites |
| Pages.RowLayout | multiplos-skus.py:161-180 | a result dict holds "EAN", then "Produto", then one cell per site in site order holding that site's field |
| Pages.RowHeaders | multiplos-skus.py:161-180 | the keys of a result dict are "EAN", "Produto" and the sites, in that order |
| Pages.RowHeadersDistinct | multiplos-skus.py:161-180 | with valid sites, the keys of a result dict are distinct, so no site overwrites "EAN", "Produto" or another site |
| Common.Keep | multiplos-skus.py:96-120 | a loop that appends some of its results keeps at most one value per element |
| Common.KeepAppend | multiplos-skus.py:96-120 | such a loop treats elements independently and in order: the values for `a + b` are those for `a` followed by those for `b` |
| Common.KeepMember | multiplos-skus.py:96-120 | a value is kept exactly when some element yields it |
| Common.KeepSkips | tempCodeRunnerFile.py:37-44 | an element that yields nothing can be removed without changing what is kept |
| Common.LowerIdempotent | poucos-skus.py:34 | lower-casing twice is lower-casing once |
| Common.LowerContains | poucos-skus.py:33-34 | a text containing a needle contains it lower-cased once both are lower-cased |
| Common.NatToStringValue | multiplos-skus.py:176 | the decimal text of a natural number reads back as that number |
| MultiplosSkus.FindPrices | multiplos-skus.py:76-131 | the loops of `find_prices` compute the labels and the cheapest prices of `FindPricesOf` |
| MultiplosSkus.CollectListings | multiplos-skus.py:96-113 | the loop over the Mercado Livre listings appends exactly the prices `MlPrices` describes, in page order |
| MultiplosSkus.CollectElements | multiplos-skus.py:116-120 | the loop over the price elements appends exactly the prices `clean_price` reads from them, in page order |
| MultiplosSkus.FindPricesOutcome | multiplos-skus.py:122-131 | "Erro na busca" exactly when reading the page failed; "Não encontrado" exactly on a timeout or when no price was collected; otherwise the cheapest collected prices |
| MultiplosSkus.CheapestSelection | multiplos-skus.py:123-124 | from non-empty prices, `min(3, n)` amounts, ascending, drawn from the prices, none cheaper left out |
| MultiplosSkus.MlPricesMember | multiplos-skus.py:96-113 | a value is collected from Mercado Livre exactly when some listing yields it |
| MultiplosSkus.MlPricesAppend | multiplos-skus.py:96-113 | listings contribute independently, in page order |
| MultiplosSkus.MlItemSkipped | multiplos-skus.py:98-102 | a listing contributes only if its lower-cased text contains the EAN and it has a whole-part element |
| MultiplosSkus.MlItemWithoutCents | multiplos-skus.py:102-108 | without a cents element the price is the digits of the whole part, in reais |
| MultiplosSkus.MlItemWithCents | multiplos-skus.py:102-108 | with two-digit cents, the price is the digits of the whole part plus the cents |
| MultiplosSkus.ElementPricesMember | multiplos-skus.py:116-120 | a value is collected from Amazon or Magazine Luiza exactly when one of the price texts reads as it |
| MultiplosSkus.OnlyLeadingElementsRead | multiplos-skus.py:92-120 | on Mercado Livre, listings after the tenth never change the result, whatever the price elements; on the other sites, price elements after the fifth never change it, whatever the listings |
| MultiplosSkus.TwoDigits | multiplos-skus.py:176 | the two-digit fraction text reads back as its value |
| MultiplosSkus.FormatHundredths | multiplos-skus.py:174-178 | an amount of `n` cents is written `R$ <n div 100>,<two digits of n mod 100>` |
| MultiplosSkus.FormatRoundTrip | multiplos-skus.py:176 | `clean_price` reads a formatted whole-cents amount back as the same amount |
| MultiplosSkus.FormatPrices | multiplos-skus.py:173-180 | the formatting loop yields the comma-joined formatted entries |
| MultiplosSkus.ProcessRow | multiplos-skus.py:161-182 | the sites loop builds the row `RowOf` describes |
| MultiplosSkus.RowColumns | multiplos-skus.py:161-180 | a row holds the EAN, then the term, then each site's field in site order |
| MultiplosSkus.RowColumnsDistinct | multiplos-skus.py:161-180 | with valid sites, a row's headers are distinct, as dict keys are |
| MultiplosSkus.ConfiguredRowColumns | multiplos-skus.py:134-147 | with the three configured sites, a row's columns are "EAN", "Produto", "Mercado Livre", "Amazon" and "Magazine Luiza", all distinct |
| MultiplosSkus.EmptyTermField | multiplos-skus.py:163-169 | a site's field is "Termo vazio" exactly when its search term is empty |
| MultiplosSkus.RunAll | multiplos-skus.py:150-184 | the main loop builds the report `Report` describes |
| MultiplosSkus.ReportRows | multiplos-skus.py:150-157 | a row is in the report exactly when it is the row of an input row with a non-empty EAN |
| MultiplosSkus.ReportLength | multiplos-skus.py:155-157 | the report has one row per input row with a non-empty EAN |
| MultiplosSkus.ReportAppend | multiplos-skus.py:150-184 | input rows are processed independently, in order |
| PoucosSkus.BuscarPrecos | poucos-skus.py:21-66 | the loops of `buscar_precos` compute `BuscarPrecosOf` |
| PoucosSkus.CollectMl | poucos-skus.py:30-44 | the loop over the Mercado Livre listings appends exactly the texts `MlPrices` describes, in page order |
| PoucosSkus.CollectAmazon | poucos-skus.py:46-59 | the loop over the Amazon listings appends exactly the texts `AmazonPrices` describes, in page order |
| PoucosSkus.BuscarPrecosOutcome | poucos-skus.py:62-66 | the error label when the page could not be read; otherwise one to five entries, with the no-price label exactly when nothing was gathered |
| PoucosSkus.MlPricesMember | poucos-skus.py:31-44 | a text is gathered from Mercado Livre exactly when some listing yields it |
| PoucosSkus.MlFilter | poucos-skus.py:33-34 | the filter is the EAN or "dove shampoo" in the lower-cased text; the second lower-casing changes nothing |
| PoucosSkus.ProductNameAnyCase | poucos-skus.py:34 | a listing naming the product in any letter case passes the filter, whatever its EAN |
| PoucosSkus.AmazonPricesMember | poucos-skus.py:46-59 | a text is gathered from Amazon exactly when some listing yields it |
| PoucosSkus.AmazonSellerPreference | poucos-skus.py:50-57 | a listing naming only other sellers is left out; a complete listing with no seller or with Amazon.com.br among them is kept |
| PoucosSkus.ResultsOf | poucos-skus.py:87-90 | one result per site searched |
| PoucosSkus.SearchAll | poucos-skus.py:87-90 | the sites loop builds `ResultsOf` |
| PoucosSkus.ResultsOrder | poucos-skus.py:68-90 | each site is searched for its own term and recorded under its name, in configured order |
| PoucosSkus.ItemLines | poucos-skus.py:100-101 | one line per entry |
| PoucosSkus.WriteItems | poucos-skus.py:100-101 | the writes of one site's entries append exactly its numbered item lines |
| PoucosSkus.WriteReport | poucos-skus.py:96-102 | the writes produce the lines `ReportLines` describes |
| PoucosSkus.ItemLinesNumbered | poucos-skus.py:100-101 | item lines are numbered from 1 in order |
| PoucosSkus.ItemNumberReadsBack | poucos-skus.py:100-101 | the number in an item line reads back as its position |
| PoucosSkus.ReportLength | poucos-skus.py:96-102 | the report has a two-line header, then for each site a name line, one line per entry and a blank line |
| PoucosSkus.SitesReported | poucos-skus.py:98-102 | every site's name line and every one of its entries appear in the report |
| TempCodeRunner.BuscarPrecos | tempCodeRunnerFile.py:28-51 | the loop of `buscar_precos` computes `BuscarPrecosOf` |
| TempCodeRunner.CollectMl | tempCodeRunnerFile.py:35-44 | the loop over the Mercado Livre listings appends exactly the texts `MlPrices` describes, in page order |
| TempCodeRunner.BuscarPrecosOutcome | tempCodeRunnerFile.py:47-51 | the error label when the page could not be read; otherwise one to five entries, with the no-price label exactly when nothing was gathered |
| TempCodeRunner.MlPricesMember | tempCodeRunnerFile.py:37-44 | a text is gathered exactly when some listing mentioning the EAN has it as its whole-part text |
| TempCodeRunner.MlPricesIgnoresOthers | tempCodeRunnerFile.py:39-42 | a listing not mentioning the EAN can be removed without changing what is gathered |
| TempCodeRunner.ProcessRow | tempCodeRunnerFile.py:75-80 | the sites loop builds the row `RowOf` describes |
| TempCodeRunner.RowColumns | tempCodeRunnerFile.py:75-79 | a row holds the EAN, then the term, then each site's joined texts in site order |
| TempCodeRunner.RowColumnsDistinct | tempCodeRunnerFile.py:75-79 | with valid sites, a row's headers are distinct |
| TempCodeRunner.Report | tempCodeRunnerFile.py:70-82 | one report row per input row |
| TempCodeRunner.RunAll | tempCodeRunnerFile.py:70-82 | the main loop builds the report `Report` describes |
| TempCodeRunner.ReportRows | tempCodeRunnerFile.py:70-82 | every input row, even one with an empty EAN, has its row at the same position |

## Left out

- The browser is not modelled: Selenium, the URLs, the waits and their timeouts, `time.sleep` and `random.uniform`, `print`, and `navegador.quit`. A search is the `Fetch` outcome it produces.
- An exception from `navegador.get`, which is called outside the `try`, ends the scripts. It is not modelled; `Failed` covers only errors raised inside the `try`.
- A listing is skipped when a sub-element is missing. Other per-listing exceptions, such as a stale element, are not modelled.
- The web is a function of (site, search term). It therefore answers the same search the same way throughout a run.
- Reading the input CSV is not modelled: the encoding fallback, the missing-file and missing-column exits, and pandas' typing of the columns. An `InputRow` holds the two columns already converted to strings. `multiplos-skus.py` turns a missing value into "". In `tempCodeRunnerFile.py` a missing value would be searched for as "nan".
- Writing the Excel and text files is not modelled: the file paths, the encodings and the DataFrame conversion. The outputs are the list of rows and the list of report lines.
- PriceText.CleanPrice: prices are exact reals, not binary floats. The rounding of `float()` is not modelled.
- MultiplosSkus.Fixed2: `:.2f` is modelled as rounding half-cents up on the exact value. Python rounds the binary value half to even. The two agree on every amount with at most two decimals, which covers every amount in `FormatHundredths` and `FormatRoundTrip`.
- PriceText.KeepPriceChars: only ASCII digits are kept. Python's `\d` also matches other Unicode decimal digits.
- Common.Lower: only ASCII letters are lower-cased.
