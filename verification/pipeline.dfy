/**
 `main` after the page visits: the collected stocks are written as CSV rows,
 and the chart is generated only when at least one stock was collected.
 */
module Pipeline {
  import opened Results
  import opened Strconv
  import opened Stocks
  import opened Collector
  import opened Csv
  import opened PriceSort
  import opened Chart
  import Price

  /** What a run leaves behind: the CSV rows, and the chart if one was
      attempted. */
  datatype Output = Output(rows: seq<Row>, chart: Option<Result<Plot>>)

  function Run(responses: seq<Response>, parse: Parser, twoDecimals: real -> string): (out: Output)
    ensures ReadStocks(out.rows) == Some(Valid(Candidates(responses, parse)))
    ensures out.chart.None? <==> Valid(Candidates(responses, parse)) == []
    ensures out.chart.Some? ==> out.chart.value == GenerateGraph(Valid(Candidates(responses, parse)), parse, twoDecimals)
  {
    var stocks := Collect(responses, parse);
    CollectFromIsValid([], responses, parse);
    assert stocks == Valid(Candidates(responses, parse));
    RowsRoundTrip(stocks);
    Output(Rows(stocks), if |stocks| > 0 then Some(GenerateGraph(stocks, parse, twoDecimals)) else None)
  }

  /** Every collected price parses, so a chart that is attempted never stops
      with "No valid data for the graph". */
  lemma RunNeverFatal(responses: seq<Response>, parse: Parser, twoDecimals: real -> string)
    ensures var out := Run(responses, parse, twoDecimals);
            out.chart.Some? ==> out.chart.value.Ok?
  {
    var stocks := Collect(responses, parse);
    CollectPricesParse(responses, parse);
    if |stocks| > 0 {
      assert IsNumber(parse, stocks[0].price);
    }
  }

  /** On every collection a run can produce, the emptiness check as written
      and the check for a parseable price agree, so using the latter does not
      change what a run does. */
  lemma RunChecksAgree(responses: seq<Response>, parse: Parser)
    ensures var stocks := Collect(responses, parse);
            NoDataAsWritten(BarSeries(SortByPrice(stocks, parse), parse).values) <==> NoValidPrice(stocks, parse)
  {
    var stocks := Collect(responses, parse);
    CollectPricesParse(responses, parse);
    if |stocks| > 0 {
      assert IsNumber(parse, stocks[0].price);
    }
  }

  /** On every collection a run can produce, the chart as written is the chart
      with the intended check. */
  lemma RunGraphsAgree(responses: seq<Response>, parse: Parser, twoDecimals: real -> string)
    ensures var stocks := Collect(responses, parse);
            GenerateGraph(stocks, parse, twoDecimals) == GenerateGraphIntended(stocks, parse, twoDecimals)
  {
    var stocks := Collect(responses, parse);
    CollectPricesParse(responses, parse);
    if |stocks| > 0 {
      assert IsNumber(parse, stocks[0].price);
      GraphsAgreeWhenSomePriceParses(stocks, parse, twoDecimals);
    } else {
      assert NoValidPrice(stocks, parse);
    }
  }

  lemma RunRows(responses: seq<Response>, parse: Parser, twoDecimals: real -> string)
    ensures Run(responses, parse, twoDecimals).rows == Rows(Collect(responses, parse))
  {
  }

  /** A run over one page writes the header and, when the page's stock is
      complete, one row of the company text, the normalised price and the
      change text, in that order. */
  lemma RunOfOnePage(page: Page, parse: Parser, twoDecimals: real -> string)
    ensures var price := Price.CleanPrice(page.priceText, parse);
            Run([Loaded(page)], parse, twoDecimals).rows
            == [Header] + (if page.companyText != "" && price != "" && page.changeText != ""
                           then [[page.companyText, price, page.changeText]] else [])
  {
    var stocks := Collect([Loaded(page)], parse);
    CollectOnePage(page, parse);
    RunRows([Loaded(page)], parse, twoDecimals);
    var s := Extract(page, parse);
    assert Complete(s) ==> Records([s]) == [[s.company, s.price, s.change]];
    assert Records([]) == [];
  }

  /** In a run's chart no bar falls back to the zero value: every x-axis label
      is the company of the stock at that position, a non-empty name. */
  lemma RunChartLabelsEveryBar(responses: seq<Response>, parse: Parser, twoDecimals: real -> string)
    ensures var out := Run(responses, parse, twoDecimals);
            out.chart.Some? && out.chart.value.Ok? ==>
              forall i :: 0 <= i < |out.chart.value.value.categories| ==> out.chart.value.value.categories[i] != ""
  {
    var stocks := Collect(responses, parse);
    CollectPricesParse(responses, parse);
    CollectAllComplete(responses, parse);
    var out := Run(responses, parse, twoDecimals);
    if out.chart.Some? && out.chart.value.Ok? {
      var sorted := SortByPrice(stocks, parse);
      ArrangedLabelsNonEmpty(stocks, sorted, parse);
      assert out.chart.value == GenerateGraph(stocks, parse, twoDecimals);
      assert GenerateGraph(stocks, parse, twoDecimals).value == SortedPlot(stocks, parse, twoDecimals);
      assert SortedPlot(stocks, parse, twoDecimals) == BuildPlot(sorted, parse, twoDecimals);
      var labels := BarSeries(sorted, parse).labels;
      assert BuildPlot(sorted, parse, twoDecimals).categories == labels;
      assert out.chart.value.value.categories == labels;
    }
  }

  /** Complete stocks whose prices all parse get a non-empty label each, in
      whatever order they are arranged. */
  lemma ArrangedLabelsNonEmpty(stocks: seq<Stock>, arranged: seq<Stock>, parse: Parser)
    requires AllComplete(stocks)
    requires forall i :: 0 <= i < |stocks| ==> IsNumber(parse, stocks[i].price)
    requires multiset(arranged) == multiset(stocks)
    ensures forall i :: 0 <= i < |arranged| ==> BarSeries(arranged, parse).labels[i] != ""
  {
    var series := BarSeries(arranged, parse);
    forall i | 0 <= i < |arranged|
      ensures series.labels[i] != ""
    {
      assert arranged[i] in multiset(stocks);
      var j :| 0 <= j < |stocks| && stocks[j] == arranged[i];
    }
  }
}
