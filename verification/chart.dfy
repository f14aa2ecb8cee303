/**
 The data `generateGraph` hands to the plotting library: the stocks sorted by
 price, then position by position a bar value, an x-axis label and a point for
 the bar's text label; a stock whose price does not parse is skipped by the
 loop and leaves the zero values (0, "", (0, 0)) at its position. The text
 labels are the values formatted as "$" followed by two decimals.
 */
module Chart {
  import opened Results
  import opened Strconv
  import opened Stocks
  import opened PriceSort
  import Price
  import GoStrings

  const Title := "Stock Prices"
  const XAxis := "Companies"
  const YAxis := "Price (USD)"
  const NoDataMessage := "No valid data for the graph"

  /** A position in the plot (x is the bar's index). */
  datatype Point = Point(x: int, y: real)

  /** What the loop over the sorted stocks fills in: bar heights, x-axis
      labels, and the points the text labels are drawn at. */
  datatype Series = Series(values: seq<real>, labels: seq<string>, points: seq<Point>)

  /** The plot as handed to the library. */
  datatype Plot = Plot(
    title: string, xAxis: string, yAxis: string,
    bars: seq<real>, categories: seq<string>, barLabels: seq<string>, labelPoints: seq<Point>)

  /** The loop body for position `i`: the parsed price, or the zero values
      when the price does not parse. */
  function Entry(stocks: seq<Stock>, parse: Parser, i: nat): (real, string, Point)
    requires i < |stocks|
  {
    match parse(stocks[i].price)
    case Some(price) => (price, stocks[i].company, Point(i, price))
    case None => (0.0, "", Point(0, 0.0))
  }

  /** The values, labels and points built from the sorted stocks. */
  function BarSeries(stocks: seq<Stock>, parse: Parser): (s: Series)
    ensures |s.values| == |stocks| && |s.labels| == |stocks| && |s.points| == |stocks|
    ensures forall i :: 0 <= i < |stocks| ==> s.values[i] == Key(parse, stocks[i])
    ensures forall i :: 0 <= i < |stocks| && IsNumber(parse, stocks[i].price) ==>
              s.labels[i] == stocks[i].company && s.points[i] == Point(i, s.values[i])
    ensures forall i :: 0 <= i < |stocks| && !IsNumber(parse, stocks[i].price) ==>
              s.values[i] == 0.0 && s.labels[i] == "" && s.points[i] == Point(0, 0.0)
  {
    Series(
      seq(|stocks|, i requires 0 <= i < |stocks| => Entry(stocks, parse, i).0),
      seq(|stocks|, i requires 0 <= i < |stocks| => Entry(stocks, parse, i).1),
      seq(|stocks|, i requires 0 <= i < |stocks| => Entry(stocks, parse, i).2))
  }

  /** The bar heights are exactly the sort keys, position by position. */
  lemma BarValuesAreKeys(stocks: seq<Stock>, parse: Parser)
    ensures BarSeries(stocks, parse).values == Keys(stocks, parse)
  {
    var vs := BarSeries(stocks, parse).values;
    forall i | 0 <= i < |stocks|
      ensures vs[i] == Keys(stocks, parse)[i]
    {
      KeysIndex(stocks, parse, i);
    }
  }

  /** `formatPriceLabels`: one label per value, "$" followed by the value
      written by `twoDecimals` (Go's "%.2f"). */
  function FormatPriceLabels(values: seq<real>, twoDecimals: real -> string): (labels: seq<string>)
    ensures |labels| == |values|
    ensures forall i :: 0 <= i < |values| ==> labels[i] == [Price.Currency] + twoDecimals(values[i])
  {
    seq(|values|, i requires 0 <= i < |values| => [Price.Currency] + twoDecimals(values[i]))
  }

  /** A price label normalises back to the formatted amount, whenever that
      amount is a number without '$' or surrounding white space. */
  lemma PriceLabelRoundTrip(values: seq<real>, twoDecimals: real -> string, parse: Parser, i: nat)
    requires RejectsEmpty(parse)
    requires i < |values|
    requires IsNumber(parse, twoDecimals(values[i]))
    requires Price.Currency !in twoDecimals(values[i]) && GoStrings.Trimmed(twoDecimals(values[i]))
    ensures Price.CleanPrice(FormatPriceLabels(values, twoDecimals)[i], parse) == twoDecimals(values[i])
  {
    Price.CleanPriceOfDollarAmount(twoDecimals(values[i]), parse);
  }

  /** The emptiness check as written: `len(values) == 0`. */
  predicate NoDataAsWritten(values: seq<real>) {
    |values| == 0
  }

  /** The values have one entry per stock whether or not its price parses, so
      the check as written fires only on an empty input. */
  lemma AsWrittenCheckOnlyOnEmpty(stocks: seq<Stock>, parse: Parser)
    ensures NoDataAsWritten(BarSeries(stocks, parse).values) <==> |stocks| == 0
  {
  }

  /** The check the message "No valid data for the graph" describes: no price
      parses. */
  predicate NoValidPrice(stocks: seq<Stock>, parse: Parser) {
    forall i :: 0 <= i < |stocks| ==> !IsNumber(parse, stocks[i].price)
  }

  /** A stock whose price is "n/a" passes the check as written although no
      price can be plotted: the chart is drawn with one zero bar and an empty
      axis label. */
  lemma AsWrittenCheckMissesUnparseable()
    ensures var stocks := [Stock("Acme", "n/a", "+1.2%")];
            && !NoDataAsWritten(BarSeries(stocks, Decimal).values)
            && NoValidPrice(stocks, Decimal)
            && BarSeries(stocks, Decimal).values == [0.0]
            && BarSeries(stocks, Decimal).labels == [""]
  {
    var stocks := [Stock("Acme", "n/a", "+1.2%")];
    assert !IsDecimalChar(stocks[0].price[0]);
    assert !IsNumber(Decimal, stocks[0].price);
  }

  /** Whether some price parses does not depend on the order of the stocks. */
  lemma NoValidPricePermutation(a: seq<Stock>, b: seq<Stock>, parse: Parser)
    requires multiset(a) == multiset(b)
    ensures NoValidPrice(a, parse) <==> NoValidPrice(b, parse)
  {
    if !NoValidPrice(a, parse) {
      var i :| 0 <= i < |a| && IsNumber(parse, a[i].price);
      assert a[i] in multiset(b);
      var j :| 0 <= j < |b| && b[j] == a[i];
    }
    if !NoValidPrice(b, parse) {
      var j :| 0 <= j < |b| && IsNumber(parse, b[j].price);
      assert b[j] in multiset(a);
      var i :| 0 <= i < |a| && a[i] == b[j];
    }
  }

  /** The title and axis texts of the chart. */
  predicate Titled(p: Plot) {
    p.title == Title && p.xAxis == XAxis && p.yAxis == YAxis
  }

  /** Every named bar belongs to one of the stocks: its x-axis label is the
      company of a stock whose price is the bar's height, and its price label
      is drawn at (position, height). */
  predicate LabelsPaired(p: Plot, stocks: seq<Stock>, parse: Parser) {
    && |p.categories| == |p.bars|
    && |p.labelPoints| == |p.bars|
    && forall i :: 0 <= i < |p.bars| && p.categories[i] != "" ==>
         && p.labelPoints[i] == Point(i, p.bars[i])
         && exists j :: 0 <= j < |stocks| && stocks[j].company == p.categories[i] && Key(parse, stocks[j]) == p.bars[i]
  }

  /** The plot is the one built from some sorted arrangement of the stocks,
      whichever arrangement the unstable sort picks. */
  ghost predicate PlotOfSorted(p: Plot, stocks: seq<Stock>, parse: Parser, twoDecimals: real -> string) {
    exists sorted :: multiset(sorted) == multiset(stocks) && SortedByPrice(sorted, parse)
                     && p == BuildPlot(sorted, parse, twoDecimals)
  }

  /** Conversely to LabelsPaired, every stock whose price parses names a bar
      of its own price. */
  lemma PlotNamesEveryParsedStock(p: Plot, stocks: seq<Stock>, parse: Parser, twoDecimals: real -> string)
    requires PlotOfSorted(p, stocks, parse, twoDecimals)
    ensures forall j :: 0 <= j < |stocks| && IsNumber(parse, stocks[j].price) ==>
              exists i :: 0 <= i < |p.bars| && p.categories[i] == stocks[j].company && p.bars[i] == Key(parse, stocks[j])
  {
    var sorted :| multiset(sorted) == multiset(stocks) && SortedByPrice(sorted, parse)
                  && p == BuildPlot(sorted, parse, twoDecimals);
    var series := BarSeries(sorted, parse);
    forall j | 0 <= j < |stocks| && IsNumber(parse, stocks[j].price)
      ensures exists i :: 0 <= i < |p.bars| && p.categories[i] == stocks[j].company && p.bars[i] == Key(parse, stocks[j])
    {
      assert stocks[j] in multiset(sorted);
      var i :| 0 <= i < |sorted| && sorted[i] == stocks[j];
      assert p.categories[i] == series.labels[i] == stocks[j].company;
      assert p.bars[i] == series.values[i];
    }
  }

  /** The plot for stocks already in ascending order of price. */
  function BuildPlot(sorted: seq<Stock>, parse: Parser, twoDecimals: real -> string): (p: Plot)
    requires SortedByPrice(sorted, parse)
    ensures Titled(p)
    ensures p.bars == Keys(sorted, parse) && NonDecreasing(p.bars)
    ensures p.categories == BarSeries(sorted, parse).labels && p.labelPoints == BarSeries(sorted, parse).points
    ensures |p.categories| == |sorted| && |p.labelPoints| == |sorted|
    ensures p.barLabels == FormatPriceLabels(p.bars, twoDecimals)
  {
    var series := BarSeries(sorted, parse);
    BarValuesAreKeys(sorted, parse);
    SortedKeysNonDecreasing(sorted, parse);
    Plot(Title, XAxis, YAxis, series.values, series.labels,
         FormatPriceLabels(series.values, twoDecimals), series.points)
  }

  /** The plot `generateGraph` draws: the stocks sorted by price, then the
      series of the sorted stocks. */
  function SortedPlot(stocks: seq<Stock>, parse: Parser, twoDecimals: real -> string): (p: Plot)
    ensures Titled(p)
    ensures |p.bars| == |stocks| && |p.categories| == |stocks| && |p.labelPoints| == |stocks|
    ensures NonDecreasing(p.bars)
    ensures multiset(p.bars) == multiset(Keys(stocks, parse))
    ensures p.barLabels == FormatPriceLabels(p.bars, twoDecimals)
    ensures LabelsPaired(p, stocks, parse)
    ensures PlotOfSorted(p, stocks, parse, twoDecimals)
  {
    var sorted := SortByPrice(stocks, parse);
    KeysMultiset(sorted, stocks, parse);
    var plot := BuildPlot(sorted, parse, twoDecimals);
    assert |sorted| == |stocks| by {
      assert |multiset(sorted)| == |multiset(stocks)|;
    }
    PlotOfArrangementPaired(stocks, sorted, parse, twoDecimals);
    plot
  }

  /** The plot of any arrangement of the stocks pairs each named bar with a
      stock of that company and price. */
  lemma PlotOfArrangementPaired(stocks: seq<Stock>, sorted: seq<Stock>, parse: Parser, twoDecimals: real -> string)
    requires multiset(sorted) == multiset(stocks) && SortedByPrice(sorted, parse)
    ensures LabelsPaired(BuildPlot(sorted, parse, twoDecimals), stocks, parse)
  {
    var p := BuildPlot(sorted, parse, twoDecimals);
    var series := BarSeries(sorted, parse);
    forall i | 0 <= i < |p.bars| && p.categories[i] != ""
      ensures p.labelPoints[i] == Point(i, p.bars[i])
      ensures exists j :: 0 <= j < |stocks| && stocks[j].company == p.categories[i] && Key(parse, stocks[j]) == p.bars[i]
    {
      assert IsNumber(parse, sorted[i].price);
      assert p.bars[i] == series.values[i] == Key(parse, sorted[i]);
      assert sorted[i] in multiset(stocks);
      var j :| 0 <= j < |stocks| && stocks[j] == sorted[i];
    }
  }

  /** `generateGraph` as written: sort, build the series, stop with a fatal
      error when `len(values) == 0`, and otherwise assemble the plot. As the
      values have one entry per stock, it stops exactly on an empty input. */
  function GenerateGraph(stocks: seq<Stock>, parse: Parser, twoDecimals: real -> string): (r: Result<Plot>)
    ensures r.Fatal? <==> |stocks| == 0
    ensures r.Fatal? ==> r.message == NoDataMessage
    ensures r.Ok? ==> && |r.value.bars| == |stocks|
                      && |r.value.categories| == |stocks|
                      && |r.value.labelPoints| == |stocks|
                      && NonDecreasing(r.value.bars)
                      && multiset(r.value.bars) == multiset(Keys(stocks, parse))
                      && r.value.barLabels == FormatPriceLabels(r.value.bars, twoDecimals)
                      && Titled(r.value)
                      && LabelsPaired(r.value, stocks, parse)
                      && PlotOfSorted(r.value, stocks, parse, twoDecimals)
  {
    var sorted := SortByPrice(stocks, parse);
    if NoDataAsWritten(BarSeries(sorted, parse).values) then
      assert |sorted| == |stocks| by {
        assert |multiset(sorted)| == |multiset(stocks)|;
      }
      Fatal(NoDataMessage)
    else
      Ok(SortedPlot(stocks, parse, twoDecimals))
  }

  /** `generateGraph` with the check its comment and message describe: stop
      exactly when no price parses. */
  function GenerateGraphIntended(stocks: seq<Stock>, parse: Parser, twoDecimals: real -> string): (r: Result<Plot>)
    ensures r.Fatal? <==> NoValidPrice(stocks, parse)
    ensures r.Fatal? ==> r.message == NoDataMessage
    ensures r.Ok? ==> && |r.value.bars| == |stocks|
                      && |r.value.categories| == |stocks|
                      && |r.value.labelPoints| == |stocks|
                      && NonDecreasing(r.value.bars)
                      && multiset(r.value.bars) == multiset(Keys(stocks, parse))
                      && r.value.barLabels == FormatPriceLabels(r.value.bars, twoDecimals)
                      && Titled(r.value)
                      && LabelsPaired(r.value, stocks, parse)
                      && PlotOfSorted(r.value, stocks, parse, twoDecimals)
  {
    var sorted := SortByPrice(stocks, parse);
    NoValidPricePermutation(stocks, sorted, parse);
    if NoValidPrice(sorted, parse) then
      Fatal(NoDataMessage)
    else
      Ok(SortedPlot(stocks, parse, twoDecimals))
  }

  /** On a stock priced "n/a" the code as written draws a chart with one zero
      bar, where the intended check stops. */
  lemma GraphOfUnparseable(twoDecimals: real -> string)
    ensures var stocks := [Stock("Acme", "n/a", "+1.2%")];
            && GenerateGraph(stocks, Decimal, twoDecimals).Ok?
            && GenerateGraph(stocks, Decimal, twoDecimals).value.bars == [0.0]
            && GenerateGraphIntended(stocks, Decimal, twoDecimals).Fatal?
  {
    var stocks := [Stock("Acme", "n/a", "+1.2%")];
    assert !IsDecimalChar(stocks[0].price[0]);
    assert !IsNumber(Decimal, stocks[0].price);
    var bars := GenerateGraph(stocks, Decimal, twoDecimals).value.bars;
    assert Keys(stocks, Decimal) == [0.0];
    assert bars[0] in multiset(Keys(stocks, Decimal));
  }

  /** Where some price parses the two checks agree, so the as-written graph
      and the intended one coincide. */
  lemma GraphsAgreeWhenSomePriceParses(stocks: seq<Stock>, parse: Parser, twoDecimals: real -> string)
    requires !NoValidPrice(stocks, parse)
    ensures GenerateGraph(stocks, parse, twoDecimals) == GenerateGraphIntended(stocks, parse, twoDecimals)
  {
    var sorted := SortByPrice(stocks, parse);
    NoValidPricePermutation(stocks, sorted, parse);
    assert |sorted| == |stocks| by {
      assert |multiset(sorted)| == |multiset(stocks)|;
    }
  }

  /** The bar heights are those of every sorted arrangement of the stocks, so
      they do not depend on how the unstable sort orders equal prices. */
  lemma BarsIndependentOfSortOrder(stocks: seq<Stock>, arranged: seq<Stock>, parse: Parser, twoDecimals: real -> string)
    requires multiset(arranged) == multiset(stocks) && SortedByPrice(arranged, parse)
    ensures SortedPlot(stocks, parse, twoDecimals).bars == BarSeries(arranged, parse).values
  {
    var sorted := SortByPrice(stocks, parse);
    BarValuesAreKeys(arranged, parse);
    SortedKeysUnique(sorted, arranged, parse);
  }
}
