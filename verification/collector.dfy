/**
 The page callback and the collection it fills. Each ticker's page yields the
 text of three elements (company, price, change); the price is normalised, and
 the resulting stock is appended to the collection only when it is complete.
 The pages are visited one after another, so the collection is built by a left
 fold over the responses in visit order.
 */
module Collector {
  import opened Strconv
  import opened Price
  import opened Stocks

  /** The texts the three CSS selectors find on a quote page (empty where the
      element is missing). */
  datatype Page = Page(companyText: string, priceText: string, changeText: string)

  /** What one visit produces: a page, or a request error (logged and skipped). */
  datatype Response = Loaded(page: Page) | RequestFailed

  /** The candidate built from a page. */
  function Extract(page: Page, parse: Parser): (s: Stock)
    ensures s.price != "" ==> IsNumber(parse, s.price)
  {
    Stock(page.companyText, CleanPrice(page.priceText, parse), page.changeText)
  }

  /** The guarded append: the collection grows by the candidate exactly when
      the candidate is complete, and what was there before is untouched. */
  function AddIfValid(stocks: seq<Stock>, candidate: Stock): (r: seq<Stock>)
    ensures |stocks| <= |r| && r[..|stocks|] == stocks
    ensures |r| == |stocks| + 1 <==> Complete(candidate)
    ensures |r| <= |stocks| + 1
    ensures |r| == |stocks| + 1 ==> r[|stocks|] == candidate
    ensures AllComplete(stocks) ==> AllComplete(r)
  {
    if Complete(candidate) then stocks + [candidate] else stocks
  }

  /** The callback for one response. */
  function OnResponse(stocks: seq<Stock>, response: Response, parse: Parser): seq<Stock>
  {
    match response
    case Loaded(page) => AddIfValid(stocks, Extract(page, parse))
    case RequestFailed => stocks
  }

  /** The collection after visiting every response in order. */
  function CollectFrom(stocks: seq<Stock>, responses: seq<Response>, parse: Parser): seq<Stock>
    decreases |responses|
  {
    if |responses| == 0 then stocks
    else CollectFrom(OnResponse(stocks, responses[0], parse), responses[1..], parse)
  }

  function Collect(responses: seq<Response>, parse: Parser): seq<Stock>
  {
    CollectFrom([], responses, parse)
  }

  /** The candidate a response produces, if any. */
  function CandidateOf(response: Response, parse: Parser): seq<Stock>
  {
    match response
    case Loaded(page) => [Extract(page, parse)]
    case RequestFailed => []
  }

  /** One loaded page: the collection is its stock when that is complete,
      and empty otherwise. */
  lemma CollectOnePage(page: Page, parse: Parser)
    ensures Collect([Loaded(page)], parse) == if Complete(Extract(page, parse)) then [Extract(page, parse)] else []
  {
    var responses := [Loaded(page)];
    var first := OnResponse([], Loaded(page), parse);
    assert responses[1..] == [];
    assert Collect(responses, parse) == CollectFrom(first, [], parse) == first;
  }

  /** The candidates the loaded pages produce, in visit order. */
  function Candidates(responses: seq<Response>, parse: Parser): seq<Stock>
  {
    FlatMap((r: Response) => CandidateOf(r, parse), responses)
  }

  /** The concatenation of f(x) over the elements x of xs, in order. */
  function FlatMap<T, U>(f: T -> seq<U>, xs: seq<T>): seq<U>
  {
    if |xs| == 0 then [] else f(xs[0]) + FlatMap(f, xs[1..])
  }

  lemma {:induction false} FlatMapAppend<T, U>(f: T -> seq<U>, a: seq<T>, b: seq<T>)
    ensures FlatMap(f, a + b) == FlatMap(f, a) + FlatMap(f, b)
    decreases |a|
  {
    if |a| == 0 {
      assert a + b == b;
    } else {
      FlatMapAppend(f, a[1..], b);
      assert (a + b)[0] == a[0];
      assert (a + b)[1..] == a[1..] + b;
    }
  }

  /** The complete candidates, in order: the reference the collection is
      compared with. */
  function Valid(cs: seq<Stock>): seq<Stock>
  {
    if |cs| == 0 then []
    else (if Complete(cs[0]) then [cs[0]] else []) + Valid(cs[1..])
  }

  /** Folding the callback over the responses appends exactly the complete
      candidates, in visit order, to what was collected before. */
  lemma {:induction false} CollectFromIsValid(stocks: seq<Stock>, responses: seq<Response>, parse: Parser)
    ensures CollectFrom(stocks, responses, parse) == stocks + Valid(Candidates(responses, parse))
    decreases |responses|
  {
    if |responses| > 0 {
      var first, later := responses[0], responses[1..];
      var next := OnResponse(stocks, first, parse);
      OnResponseAppendsValid(stocks, first, parse);
      CollectFromIsValid(next, later, parse);
      CandidatesCons(responses, parse);
      ValidAppend(CandidateOf(first, parse), Candidates(later, parse));
      AppendAssoc(stocks, Valid(CandidateOf(first, parse)), Valid(Candidates(later, parse)));
    }
  }

  lemma AppendAssoc(a: seq<Stock>, b: seq<Stock>, c: seq<Stock>)
    ensures (a + b) + c == a + (b + c)
  {
  }

  /** One callback appends the complete candidates of its response. */
  lemma OnResponseAppendsValid(stocks: seq<Stock>, response: Response, parse: Parser)
    ensures OnResponse(stocks, response, parse) == stocks + Valid(CandidateOf(response, parse))
  {
    match response
    case Loaded(page) =>
      var c := Extract(page, parse);
      assert Valid([c]) == (if Complete(c) then [c] else []) + Valid([]);
    case RequestFailed =>
  }

  lemma {:induction false} ValidAppend(a: seq<Stock>, b: seq<Stock>)
    ensures Valid(a + b) == Valid(a) + Valid(b)
    decreases |a|
  {
    if |a| > 0 {
      ValidAppend(a[1..], b);
      assert (a + b)[1..] == a[1..] + b;
    } else {
      assert a + b == b;
    }
  }

  /** Valid keeps exactly the complete candidates: every kept stock is complete
      and comes from the input, and every complete candidate is kept. */
  lemma {:induction false} ValidMembers(cs: seq<Stock>, s: Stock)
    ensures s in Valid(cs) <==> s in cs && Complete(s)
    decreases |cs|
  {
    if |cs| > 0 {
      ValidMembers(cs[1..], s);
      assert cs == [cs[0]] + cs[1..];
    }
  }

  /** The collection invariant: nothing incomplete is ever collected. */
  lemma CollectAllComplete(responses: seq<Response>, parse: Parser)
    ensures AllComplete(Collect(responses, parse))
  {
    var r := Collect(responses, parse);
    CollectFromIsValid([], responses, parse);
    forall i | 0 <= i < |r|
      ensures Complete(r[i])
    {
      ValidMembers(Candidates(responses, parse), r[i]);
    }
  }

  /** Every collected price is a number the parser accepts. */
  lemma CollectPricesParse(responses: seq<Response>, parse: Parser)
    ensures forall i :: 0 <= i < |Collect(responses, parse)| ==> IsNumber(parse, Collect(responses, parse)[i].price)
  {
    var r := Collect(responses, parse);
    CollectFromIsValid([], responses, parse);
    forall i | 0 <= i < |r|
      ensures IsNumber(parse, r[i].price)
    {
      ValidMembers(Candidates(responses, parse), r[i]);
      CandidatePricesParse(responses, parse, r[i]);
    }
  }

  lemma {:induction false} CandidatePricesParse(responses: seq<Response>, parse: Parser, s: Stock)
    requires s in Candidates(responses, parse) && s.price != ""
    ensures IsNumber(parse, s.price)
    decreases |responses|
  {
    var head := CandidateOf(responses[0], parse);
    if s !in head {
      CandidatePricesParse(responses[1..], parse, s);
    }
  }

  /** Later visits only append: the collection after a prefix of the responses
      is a prefix of the final collection. */
  lemma {:induction false} CollectAppendOnly(responses: seq<Response>, n: nat, parse: Parser)
    requires n <= |responses|
    ensures var before := Collect(responses[..n], parse);
            var after := Collect(responses, parse);
            |before| <= |after| && after[..|before|] == before
  {
    var pre, post := responses[..n], responses[n..];
    assert responses == pre + post;
    CollectFromIsValid([], pre, parse);
    CollectFromIsValid([], responses, parse);
    CandidatesAppend(pre, post, parse);
    var kept, later := Valid(Candidates(pre, parse)), Valid(Candidates(post, parse));
    ValidAppend(Candidates(pre, parse), Candidates(post, parse));
    assert Collect(pre, parse) == kept;
    assert Collect(responses, parse) == kept + later;
    PrefixOfAppend(kept, later);
  }

  lemma PrefixOfAppend(a: seq<Stock>, b: seq<Stock>)
    ensures |a| <= |a + b| && (a + b)[..|a|] == a
  {
  }

  lemma CandidatesCons(responses: seq<Response>, parse: Parser)
    requires |responses| > 0
    ensures Candidates(responses, parse) == CandidateOf(responses[0], parse) + Candidates(responses[1..], parse)
  {
  }

  lemma CandidatesAppend(a: seq<Response>, b: seq<Response>, parse: Parser)
    ensures Candidates(a + b, parse) == Candidates(a, parse) + Candidates(b, parse)
  {
    FlatMapAppend((r: Response) => CandidateOf(r, parse), a, b);
  }
}
