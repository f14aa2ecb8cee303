/** The `Stock` record the scraper collects. */
module Stocks {

  /** One scraped quote: the company name, the normalised price and the price
      change, all as text. */
  datatype Stock = Stock(company: string, price: string, change: string)

  /** The validity check of the page callback: all three fields are non-empty. */
  predicate Complete(s: Stock) {
    s.company != "" && s.price != "" && s.change != ""
  }

  predicate AllComplete(stocks: seq<Stock>) {
    forall i :: 0 <= i < |stocks| ==> Complete(stocks[i])
  }
}
