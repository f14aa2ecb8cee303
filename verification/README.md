# stock-scraper pipeline, modelled in Dafny

The program scrapes a quote page per ticker, keeps the company name, price and
price change of each page, writes them to `stocks.csv`, and draws a bar chart of
the prices sorted from cheapest to dearest. This project models the pure part
of that pipeline in `main.go`:

- the price normaliser `cleanPrice`, which splits the scraped price at every `$`, trims
  each piece and keeps the first piece that `strconv.ParseFloat` accepts (`price.dfy`,
  on top of Go's `strings.Split`/`strings.TrimSpace` in `strings.dfy`);
- the page callback, which builds a `Stock` from the three scraped texts and appends it to the
  collection only when company, price and change are all non-empty. The visits run one after
  another, so the collection is a left fold over the responses (`collector.dfy`, `stock.dfy`);
- the CSV rows: the header `Company Name, Price, Change`, then one row per stock in collection
  order (`csv.dfy`). A reader of such rows is the inverse the rows are proved against;
- `generateGraph`'s data: the stable insertion sort standing for `sort.Slice` by parsed
  price (`sort.dfy`), the values/labels/points loop, `formatPriceLabels`, and the "no valid
  data" check (`chart.dfy`);
- `main` after the visits: write the rows, and chart only when something was collected
  (`pipeline.dfy`).

`strconv.ParseFloat(s, 64)` is a parameter `parse: string -> Option<real>` (`strconv.dfy`).
`None` means ParseFloat returned an error. Every part of the program calls the same parser, so
every module takes the same parameter. `Strconv.Decimal` is one concrete parser for plain
decimal notation. It is an approximation of ParseFloat on such strings, not an exact match
(see "Left out"). `scenarios.dfy` uses it for the documented examples.
`fmt.Sprintf("%.2f", v)` is a parameter `twoDecimals: real -> string`. The literal `$` that the
format string puts before it is modelled.

The sort key is the value `strconv.ParseFloat` returns with its error ignored (main.go:129-130).
The model takes it to be the parsed price when the price parses and 0 otherwise. In Go an
out-of-range price gives ±Inf there instead; see "Left out". `sort.Slice` is not stable, so
`SortByPrice` promises only a permutation sorted by that key, and `SortedKeysUnique` shows that
every such permutation gives the same sequence of prices. So the bar heights do not depend on
how the library orders equal prices.

The zero-data check in `generateGraph` does not do what its comment and message describe. The
comment "Ensure valid data is present for plotting" (main.go:163) and the message "No valid
data for the graph" (main.go:165) describe a check that no price parsed. The code tests
`len(values) == 0` (main.go:164), and `values` has one entry per stock (main.go:145), so the
check fires only on an empty slice. `Chart.GenerateGraph` models the check as written and is
what `Pipeline.Run` uses. `Chart.GenerateGraphIntended` models the check that the comment and
message describe. `Pipeline.RunGraphsAgree` proves that the two give the same result on every
collection a run can produce (see Findings).

## Model

| member | source | states |
|---|---|---|
| GoStrings.Split | main.go:115 | one more piece than there are `$` signs, no piece contains `$`, and joining the pieces with `$` gives back the input |
| GoStrings.SplitJoin | main.go:115 | splitting pieces joined with `$` gives back those pieces, so Split and Join are inverse both ways |
| GoStrings.TrimSpace | main.go:117 | the result has no white space at either end and is the slice of the input left after removing only white space from the ends |
| GoStrings.TrimSpaceIdempotent | main.go:117 | trimming twice is trimming once |
| Strconv.ValueOrZero | main.go:129-130 | the price with the parse error ignored: the parsed value when the price parses, 0 otherwise |
| Price.FirstNumericPiece | main.go:116-121 | the loop stops at the first piece whose trimmed text parses: every earlier piece fails, and it runs off the end only when none parses |
| Price.CleanPrice | main.go:113-123 | the normalised price is "" or a number the parser accepts, contains no `$`, and has no surrounding white space |
| Price.CleanPriceFirstMatch | main.go:116-120 | when piece i is the first whose trimmed text parses, the result is that trimmed text |
| Price.CleanPriceFromPiece | main.go:116-120 | a non-empty result is the trimmed text of a piece that parses |
| Price.CleanPriceEmptyIff | main.go:116-122 | for a parser that rejects "", the result is "" exactly when no trimmed piece parses (both directions) |
| Price.CleanPriceIdempotent | main.go:113-123 | normalising an already normalised price changes nothing |
| Price.CleanPriceOfDollarAmount | main.go:113-123 | "$" followed by a trimmed number without `$` normalises to that number |
| Collector.Extract | main.go:53-57 | a candidate's price is either empty or a number the parser accepts |
| Collector.CollectOnePage | main.go:53-63 | after one loaded page the collection is that page's stock (its company text, cleaned price and change text) when it is complete, and empty otherwise |
| Collector.AddIfValid | main.go:60-63 | the collection grows by exactly the candidate when all three fields are non-empty and is otherwise unchanged; earlier entries are untouched and completeness is preserved |
| Collector.CollectFromIsValid | main.go:51-74 | visiting the responses in order appends exactly the complete candidates of the loaded pages, in visit order, to what was collected before |
| Collector.ValidMembers | main.go:60 | a stock is kept exactly when it is a candidate and complete |
| Collector.CollectAllComplete | main.go:60-63 | no collected stock has an empty company, price or change |
| Collector.CollectPricesParse | main.go:55-60 | every collected price is a number the parser accepts |
| Collector.CollectAppendOnly | main.go:61-63 | the collection after the first n visits is a prefix of the final collection |
| Csv.Rows | main.go:90-98 | one header row `Company Name, Price, Change` followed by exactly one row per stock, row i+1 holding company, price and change of stock i |
| Csv.RowsRoundTrip | main.go:90-98 | reading the written rows back gives the stocks in collection order |
| Csv.RowsOfReadStocks | main.go:90-98 | any table the reader accepts is exactly the table written for the stocks it reads |
| PriceSort.SortByPrice | main.go:128-132 | the result is a permutation of the stocks in non-decreasing order of parsed price, unparseable prices counting as 0 |
| PriceSort.SortedKeysUnique | main.go:128-132 | any two sorted permutations of the same stocks have the same sequence of prices |
| Chart.BarSeries | main.go:145-161 | one value, label and point per stock; a parsing price gives its value, the company name and the point (i, price), and a failing one leaves 0, "" and (0, 0) |
| Chart.BarValuesAreKeys | main.go:149-157 | the bar values are the sort keys, position by position |
| Chart.FormatPriceLabels | main.go:200-206 | one label per value, "$" followed by the two-decimal text of the value |
| Chart.PriceLabelRoundTrip | main.go:200-206 | normalising a price label with `cleanPrice` gives back the formatted amount, whenever that amount is a trimmed number without `$` |
| Chart.AsWrittenCheckOnlyOnEmpty | main.go:164-166 | the `len(values) == 0` check fires exactly when there are no stocks |
| Chart.AsWrittenCheckMissesUnparseable | main.go:149-166 | a stock priced "n/a" passes the check as written although no price parses, and yields a zero bar with an empty label |
| Chart.BuildPlot | main.go:139-188 | the plot of sorted stocks has the title "Stock Prices" and the axis texts "Companies" and "Price (USD)". Its bars are the sort keys in non-decreasing order, its x-axis labels and label points are the series' company names and (i, price) points, and it has one price label per bar |
| Chart.SortedPlot | main.go:128-188 | the plot of the sorted stocks has the title and axis texts, and it is the plot built from some sorted rearrangement of the stocks. Its bars are the stocks' prices in non-decreasing order, with one price label per bar. Every bar with an x-axis label is named after a stock whose price is that bar's height, and its price label is drawn at (position, height) |
| Chart.GenerateGraph | main.go:126-197 | as written: fails with "No valid data for the graph" exactly when there are no stocks, whether or not any price parses. Otherwise it gives the plot built from some sorted rearrangement of the stocks: the title and axis texts, the prices in non-decreasing order with one price label per bar, and every labelled bar named after a stock with that price |
| Chart.GenerateGraphIntended | main.go:163-166 | with the check the comment and message describe: fails with "No valid data for the graph" exactly when no price parses; otherwise a plot with the same properties as the one `Chart.GenerateGraph` draws |
| Chart.PlotOfArrangementPaired | main.go:149-160 | in the plot of any sorted arrangement of the stocks, each bar with an x-axis label is named after a stock with that price, and its price label sits at (position, height) |
| Chart.PlotNamesEveryParsedStock | main.go:149-158 | conversely, in a plot built from a sorted rearrangement, every stock whose price parses names a bar whose height is its price |
| Chart.GraphOfUnparseable | main.go:149-166 | for one stock priced "n/a" the code as written charts a single zero bar, where the intended check stops |
| Chart.GraphsAgreeWhenSomePriceParses | main.go:163-166 | when some price parses, the graph as written and the intended graph are equal |
| Chart.BarsIndependentOfSortOrder | main.go:128-157 | the bars equal the values of every other sorted arrangement of the stocks |
| Pipeline.Run | main.go:79-109 | the CSV rows read back as the complete candidates in visit order. A chart is attempted exactly when at least one stock was collected, and the attempted chart is `generateGraph` of those candidates |
| Pipeline.RunNeverFatal | main.go:107-108 | a chart that a run attempts never fails with "No valid data" |
| Pipeline.RunChecksAgree | main.go:164-166 | on every collection a run produces, the check as written and the parseable-price check give the same answer |
| Pipeline.RunGraphsAgree | main.go:163-166 | on every collection a run produces, the graph as written equals the intended graph |
| Pipeline.RunOfOnePage | main.go:53-63 | a run over one page writes the header and, when the page's stock is complete, one row holding the page's company text, the cleaned price and the change text, in that order |
| Pipeline.RunChartLabelsEveryBar | main.go:149-158 | in a run's chart every x-axis label is a non-empty company name |
| Scenarios.DollarPriceIsCleaned | main.go:113-123 | "$227.55" normalises to "227.55" |
| Scenarios.ThousandsSeparatorIsRejected | main.go:113-123 | "$1,234.56" normalises to "" |
| Scenarios.CheaperStockFirst | main.go:128-132 | stocks at 150.00 and 89.50 are sorted with 89.50 first |

## Left out

- HTTP fetching, the colly collector and its callbacks, the CSS selectors and the ticker URLs (main.go:29-51, 72-77). They are network I/O and an external library. A run takes the responses in visit order as input, each either the three scraped texts or a request error.
- The mutex (main.go:35, 61-63). All visits run one after another, so the append is modelled as a plain sequence update.
- Logging and the printed messages. `log.Fatal` is modelled as a `Fatal` result. In Go a fatal stop inside `generateGraph` also exits without running main's deferred `writer.Flush()` and `file.Close()` (main.go:84, 87), so the buffered rows never reach `stocks.csv`. `Pipeline.Run` keeps the rows whatever the chart does. The only modelled stop never fires in a run (`Pipeline.RunNeverFatal`), and the plotting failures that could stop Go there are left out (see the plotting line below).
- Creating, flushing and closing `stocks.csv`, CSV quoting, and errors from `writer.Write` (main.go:80-104). These are file I/O and library formatting. Only the rows handed to the writer are modelled.
- Plot creation, bar chart, bar width, colours, labels, grid and the PNG save (main.go:134-142, 169-196). These are calls into the plotting library. The model keeps the titles, the bar values, the x-axis labels, the label texts and the label points.
- Strconv.Decimal: covers only the plain decimal notation. `strconv.ParseFloat` also accepts exponents, hexadecimal floats, "Inf" and "NaN". Even on plain decimal strings the two differ. `Decimal` gives the exact real value, where ParseFloat rounds to the nearest float64. `Decimal` also accepts digit strings too large for float64, such as "1" followed by 400 zeros, which ParseFloat rejects with a range error and `cleanPrice` therefore drops. The scenarios use neither case. The properties of the other modules hold for any parser.
- Strconv.ValueOrZero: an out-of-range price such as "1e400" sorts as ±Inf in Go, because ParseFloat returns ±Inf together with its range error, and the values loop then skips it and leaves 0 (main.go:129-130, 152-154). Here such a price sorts as 0, so `Chart.BarValuesAreKeys` and the non-decreasing bars of `Chart.BuildPlot`, `Chart.SortedPlot` and `Chart.GenerateGraph` do not describe Go on such input. `main` never passes such a price, because `cleanPrice` rejects it.
- PriceSort.SortByPrice: prices are reals, so NaN and ±Inf are not modelled. Go's ParseFloat yields NaN for "NaN", and ±Inf for "Inf" and for out-of-range input. With NaN, Go's `<` is not a strict weak order and `sort.Slice` promises no order at all.
- GoStrings.TrimSpace: strings are sequences of code points, so invalid UTF-8 bytes are not modelled.
- Chart.PriceLabelRoundTrip: `%.2f` is the abstract `twoDecimals`, because floating-point formatting is not modelled. The round trip is stated for formatted amounts that are trimmed numbers without `$`.

## Findings

| source | as written | input that shows it | evidently intended | confidence | as-written member | corrected member |
|---|---|---|---|---|---|---|
| main.go:164-166 | `len(values) == 0`, but `values` has one entry per stock, so the check fires only on an empty slice | `generateGraph([]Stock{{"Acme", "n/a", "+1.2%"}})` passes the check and charts one zero bar with an empty label | stop with "No valid data for the graph" when no price parses | low: not executed; `main` cannot reach it, because every collected price already parsed in `cleanPrice` | Chart.GraphOfUnparseable | Chart.GenerateGraphIntended |
