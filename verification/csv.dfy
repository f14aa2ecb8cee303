/**
 The rows written to `stocks.csv`: a header row, then one row per collected
 stock in collection order. Only the row contents are modelled, not the CSV
 quoting. `ReadStocks` reads such rows back and is the inverse the rows are
 checked against.
 */
module Csv {
  import opened Results
  import opened Stocks

  type Row = seq<string>

  const Header: Row := ["Company Name", "Price", "Change"]

  /** The record written for one stock. */
  function Record(s: Stock): Row {
    [s.company, s.price, s.change]
  }

  /** The data rows, one per stock, in order. */
  function Records(stocks: seq<Stock>): (rows: seq<Row>)
    ensures |rows| == |stocks|
    ensures forall i :: 0 <= i < |stocks| ==> rows[i] == [stocks[i].company, stocks[i].price, stocks[i].change]
  {
    if |stocks| == 0 then []
    else [Record(stocks[0])] + Records(stocks[1..])
  }

  /** Everything the writer is given: the header, then the data rows. */
  function Rows(stocks: seq<Stock>): (rows: seq<Row>)
    ensures |rows| == |stocks| + 1
    ensures rows[0] == ["Company Name", "Price", "Change"]
    ensures forall i :: 0 <= i < |stocks| ==> rows[i + 1] == [stocks[i].company, stocks[i].price, stocks[i].change]
  {
    [Header] + Records(stocks)
  }

  /** Reads data rows back into stocks; None for a row without exactly three
      fields. */
  function ReadRecords(rows: seq<Row>): Option<seq<Stock>>
  {
    if |rows| == 0 then Some([])
    else if |rows[0]| != 3 then None
    else match ReadRecords(rows[1..])
      case None => None
      case Some(rest) => Some([Stock(rows[0][0], rows[0][1], rows[0][2])] + rest)
  }

  /** Reads a whole table: the header first, then the data rows. */
  function ReadStocks(rows: seq<Row>): Option<seq<Stock>>
  {
    if |rows| == 0 || rows[0] != Header then None else ReadRecords(rows[1..])
  }

  /** Reading the written rows gives back the stocks, in order. */
  lemma {:induction false} ReadRecordsOfRecords(stocks: seq<Stock>)
    ensures ReadRecords(Records(stocks)) == Some(stocks)
    decreases |stocks|
  {
    if |stocks| > 0 {
      var rows := Records(stocks);
      assert rows[1..] == Records(stocks[1..]);
      ReadRecordsOfRecords(stocks[1..]);
      assert [stocks[0]] + stocks[1..] == stocks;
    }
  }

  lemma RowsRoundTrip(stocks: seq<Stock>)
    ensures ReadStocks(Rows(stocks)) == Some(stocks)
  {
    ReadRecordsOfRecords(stocks);
    assert Rows(stocks)[1..] == Records(stocks);
  }

  /** Conversely, any table the reader accepts is exactly the one written for
      the stocks it reads. */
  lemma {:induction false} RecordsOfReadRecords(rows: seq<Row>, stocks: seq<Stock>)
    requires ReadRecords(rows) == Some(stocks)
    ensures Records(stocks) == rows
    decreases |rows|
  {
    if |rows| > 0 {
      var rest := ReadRecords(rows[1..]).value;
      RecordsOfReadRecords(rows[1..], rest);
      assert stocks == [Stock(rows[0][0], rows[0][1], rows[0][2])] + rest;
      assert stocks[1..] == rest;
      assert Record(stocks[0]) == rows[0];
      assert rows == [rows[0]] + rows[1..];
    }
  }

  lemma RowsOfReadStocks(rows: seq<Row>, stocks: seq<Stock>)
    requires ReadStocks(rows) == Some(stocks)
    ensures Rows(stocks) == rows
  {
    RecordsOfReadRecords(rows[1..], stocks);
    assert rows == [rows[0]] + rows[1..];
  }
}
