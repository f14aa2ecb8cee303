/**
 Concrete runs of the model with the plain decimal parser: the example quotes
 the normaliser and the chart are documented with.
 */
module Scenarios {
  import opened Results
  import opened GoStrings
  import opened Strconv
  import opened Price
  import opened Stocks
  import opened PriceSort

  /** "$227.55" normalises to "227.55". */
  lemma DollarPriceIsCleaned()
    ensures CleanPrice("$227.55", Decimal) == "227.55"
  {
    var amount := "227.55";
    assert IndexOfDot(amount) == 3;
    assert amount[..3] == "227" && amount[4..] == "55";
    assert IsNumber(Decimal, amount);
    assert [Currency] + amount == "$227.55";
    CleanPriceOfDollarAmount(amount, Decimal);
  }

  /** A thousands separator makes every piece of "$1,234.56" fail to parse,
      so the price normalises to "" and the stock is dropped. */
  lemma ThousandsSeparatorIsRejected()
    ensures CleanPrice("$1,234.56", Decimal) == ""
  {
    var amount := "1,234.56";
    assert !IsSpace(amount[0]) && !IsSpace(amount[|amount| - 1]);
    assert !IsDecimalChar(amount[1]);
    assert [Currency] + amount == "$1,234.56";
    assert Decimal("") == None;
    assert !IsNumber(Decimal, amount);
    DollarPieces(amount, Decimal);
  }

  /** "$" followed by a trimmed amount without '$' that the parser rejects
      normalises to "". */
  lemma DollarPieces(amount: string, parse: Parser)
    requires RejectsEmpty(parse)
    requires Currency !in amount && Trimmed(amount) && !IsNumber(parse, amount)
    ensures CleanPrice([Currency] + amount, parse) == ""
  {
    SplitLeadingSeparator(amount, Currency);
    TrimSpaceOfTrimmed(amount);
    FirstNumberBlankThenNone(amount, parse);
  }

  lemma DecimalOf150()
    ensures Decimal("150.00") == Some(150.0)
  {
    assert IndexOfDot("150.00") == 3;
    assert "150.00"[..3] == "150" && "150.00"[4..] == "00";
    assert "150"[..2] == "15" && "15"[..1] == "1" && "1"[..0] == "";
    assert DigitsValue("150") == 150;
    assert "00"[..1] == "0" && "0"[..0] == "";
    assert DigitsValue("00") == 0;
    assert AllDigits("150") && AllDigits("00");
  }

  lemma DecimalOf89()
    ensures Decimal("89.50") == Some(89.5)
  {
    assert IndexOfDot("89.50") == 2;
    assert "89.50"[..2] == "89" && "89.50"[3..] == "50";
    assert "89"[..1] == "8" && "8"[..0] == "";
    assert DigitsValue("89") == 89;
    assert "50"[..1] == "5" && "5"[..0] == "";
    assert DigitsValue("50") == 50;
    assert Pow10(2) == 100;
    assert AllDigits("89") && AllDigits("50");
  }

  /** Two quotes at 150.00 and 89.50 are charted cheapest first. */
  lemma CheaperStockFirst()
    ensures var stocks := [Stock("A", "150.00", "+1%"), Stock("B", "89.50", "-2%")];
            SortByPrice(stocks, Decimal) == [stocks[1], stocks[0]]
  {
    var a, b := Stock("A", "150.00", "+1%"), Stock("B", "89.50", "-2%");
    DecimalOf150();
    DecimalOf89();
    assert Key(Decimal, b) < Key(Decimal, a);
    SortTwo(a, b, Decimal);
  }

  /** Two stocks given dearest first are swapped. */
  lemma SortTwo(a: Stock, b: Stock, parse: Parser)
    requires Key(parse, b) < Key(parse, a)
    ensures SortByPrice([a, b], parse) == [b, a]
  {
    assert [a, b][1..] == [b] && [b][1..] == [];
    assert SortByPrice([b], parse) == [b];
    assert Insert(a, [b], parse) == [b] + Insert(a, [], parse);
  }
}
