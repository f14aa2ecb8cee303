/**
 The price normaliser `cleanPrice`: split the scraped price text at every '$',
 trim each piece, and keep the first trimmed piece that ParseFloat accepts; the
 empty string when none does.
 */
module Price {
  import opened GoStrings
  import opened Strconv

  const Currency: char := '$'

  /** The trimmed piece parses as a number. */
  predicate PieceIsNumber(parse: Parser, piece: string) {
    IsNumber(parse, TrimSpace(piece))
  }

  /** The index of the first element satisfying `p`, or |xs| when none does. */
  function FirstIndex<T>(p: T -> bool, xs: seq<T>): (k: nat)
    ensures k <= |xs|
    ensures k < |xs| ==> p(xs[k])
    ensures forall j :: 0 <= j < k ==> !p(xs[j])
  {
    if |xs| == 0 then 0
    else if p(xs[0]) then 0
    else
      var k := FirstIndex(p, xs[1..]);
      assert forall j :: 1 <= j < k + 1 ==> xs[j] == xs[1..][j - 1];
      k + 1
  }

  /** The loop of `cleanPrice`: the index of the first piece whose trimmed
      text parses, or |parts| when no piece does. */
  function FirstNumericPiece(parts: seq<string>, parse: Parser): (k: nat)
    ensures k <= |parts|
    ensures k < |parts| ==> PieceIsNumber(parse, parts[k])
    ensures forall j :: 0 <= j < k ==> !PieceIsNumber(parse, parts[j])
  {
    FirstIndex((piece: string) => PieceIsNumber(parse, piece), parts)
  }

  /** The trimmed text of the first piece that parses, or "" when none does. */
  function FirstNumber(parts: seq<string>, parse: Parser): (r: string)
    ensures r == "" || IsNumber(parse, r)
    ensures Trimmed(r)
    ensures (forall i :: 0 <= i < |parts| ==> Currency !in parts[i]) ==> Currency !in r
  {
    var k := FirstNumericPiece(parts, parse);
    if k < |parts| then
      var r := TrimSpace(parts[k]);
      assert Currency in r ==> Currency in parts[k] by {
        if Currency in r {
          TrimSpaceSubset(parts[k], Currency);
        }
      }
      r
    else ""
  }

  /** `cleanPrice(price)`. */
  function CleanPrice(price: string, parse: Parser): (r: string)
    ensures r == "" || IsNumber(parse, r)
    ensures Currency !in r
    ensures Trimmed(r)
  {
    FirstNumber(Split(price, Currency), parse)
  }

  /** First match: the result is the trimmed text of the earliest piece that
      parses. */
  lemma CleanPriceFirstMatch(price: string, parse: Parser)
    ensures forall i :: && 0 <= i < |Split(price, Currency)|
                        && PieceIsNumber(parse, Split(price, Currency)[i])
                        && (forall j :: 0 <= j < i ==> !PieceIsNumber(parse, Split(price, Currency)[j]))
                        ==> CleanPrice(price, parse) == TrimSpace(Split(price, Currency)[i])
  {
    var parts := Split(price, Currency);
    FirstNumberMatch(parts, parse);
  }

  lemma FirstNumberMatch(parts: seq<string>, parse: Parser)
    ensures forall i :: && 0 <= i < |parts|
                        && PieceIsNumber(parse, parts[i])
                        && (forall j :: 0 <= j < i ==> !PieceIsNumber(parse, parts[j]))
                        ==> FirstNumber(parts, parse) == TrimSpace(parts[i])
  {
    var k := FirstNumericPiece(parts, parse);
    if k < |parts| {
      assert FirstNumber(parts, parse) == TrimSpace(parts[k]);
    }
    forall i | 0 <= i < |parts| && PieceIsNumber(parse, parts[i]) && (forall j :: 0 <= j < i ==> !PieceIsNumber(parse, parts[j]))
      ensures k == i
    {
    }
  }

  /** A non-empty result is the trimmed text of some piece that parses. */
  lemma CleanPriceFromPiece(price: string, parse: Parser)
    ensures CleanPrice(price, parse) != "" ==>
            exists i :: 0 <= i < |Split(price, Currency)| && PieceIsNumber(parse, Split(price, Currency)[i])
                        && CleanPrice(price, parse) == TrimSpace(Split(price, Currency)[i])
  {
    var parts := Split(price, Currency);
    var k := FirstNumericPiece(parts, parse);
    if k < |parts| {
      assert PieceIsNumber(parse, parts[k]);
    }
  }

  /** With a parser that rejects "", the result is empty exactly when no piece
      parses (one direction per clause). */
  lemma CleanPriceEmptyIff(price: string, parse: Parser)
    requires RejectsEmpty(parse)
    ensures CleanPrice(price, parse) == "" ==>
            forall i :: 0 <= i < |Split(price, Currency)| ==> !PieceIsNumber(parse, Split(price, Currency)[i])
    ensures (forall i :: 0 <= i < |Split(price, Currency)| ==> !PieceIsNumber(parse, Split(price, Currency)[i])) ==>
            CleanPrice(price, parse) == ""
  {
    var parts := Split(price, Currency);
    FirstNumberEmptyIff(parts, parse);
  }

  lemma FirstNumberEmptyIff(parts: seq<string>, parse: Parser)
    requires RejectsEmpty(parse)
    ensures FirstNumber(parts, parse) == "" <==> forall i :: 0 <= i < |parts| ==> !PieceIsNumber(parse, parts[i])
  {
    var k := FirstNumericPiece(parts, parse);
    if k < |parts| {
      assert PieceIsNumber(parse, parts[k]);
    }
  }

  /** Normalising a normalised price changes nothing. */
  lemma CleanPriceIdempotent(price: string, parse: Parser)
    ensures CleanPrice(CleanPrice(price, parse), parse) == CleanPrice(price, parse)
  {
    var r := CleanPrice(price, parse);
    SplitNoSeparator(r, Currency);
    FirstNumberOfSingle(r, parse);
  }

  /** A number written after a single '$' sign, as the chart labels are
      written, is recovered exactly. */
  lemma CleanPriceOfDollarAmount(amount: string, parse: Parser)
    requires RejectsEmpty(parse)
    requires IsNumber(parse, amount) && Currency !in amount && Trimmed(amount)
    ensures CleanPrice([Currency] + amount, parse) == amount
  {
    SplitLeadingSeparator(amount, Currency);
    TrimSpaceOfTrimmed(amount);
    FirstNumberAfterBlank(amount, parse);
  }

  /** A single piece that is blank or a trimmed number is its own result. */
  lemma FirstNumberOfSingle(piece: string, parse: Parser)
    requires (piece == "" || IsNumber(parse, piece)) && Trimmed(piece)
    ensures FirstNumber([piece], parse) == piece
  {
    TrimSpaceOfTrimmed(piece);
    var parts := [piece];
    var k := FirstNumericPiece(parts, parse);
    if PieceIsNumber(parse, parts[0]) {
      assert k == 0;
    } else {
      assert k == 1;
    }
  }

  /** A blank piece followed by one that does not parse: no number. */
  lemma FirstNumberBlankThenNone(piece: string, parse: Parser)
    requires RejectsEmpty(parse)
    requires !IsNumber(parse, TrimSpace(piece))
    ensures FirstNumber(["", piece], parse) == ""
  {
    var parts := ["", piece];
    assert TrimSpace(parts[0]) == "";
    assert !PieceIsNumber(parse, parts[0]) && !PieceIsNumber(parse, parts[1]);
    var k := FirstNumericPiece(parts, parse);
    assert k == 2;
  }

  /** A blank piece followed by one that parses: the second one is taken. */
  lemma FirstNumberAfterBlank(piece: string, parse: Parser)
    requires RejectsEmpty(parse)
    requires IsNumber(parse, TrimSpace(piece))
    ensures FirstNumber(["", piece], parse) == TrimSpace(piece)
  {
    var parts := ["", piece];
    assert TrimSpace(parts[0]) == "";
    FirstNumberMatch(parts, parse);
    assert PieceIsNumber(parse, parts[1]);
  }
}
