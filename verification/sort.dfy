/**
 The sort at the start of `generateGraph`: the stocks in ascending order of
 their parsed price, a price that does not parse counting as 0. Go's
 `sort.Slice` is not stable and promises only a sorted permutation, so that is
 all `SortByPrice`'s contract promises; `SortedKeysUnique` shows that the
 resulting sequence of prices is the same for every such permutation.
 */
module PriceSort {
  import opened Strconv
  import opened Stocks

  /** The sort key: the parsed price, with the parse error ignored. */
  function Key(parse: Parser, s: Stock): real {
    ValueOrZero(parse, s.price)
  }

  predicate SortedByPrice(stocks: seq<Stock>, parse: Parser) {
    forall i, j :: 0 <= i < j < |stocks| ==> Key(parse, stocks[i]) <= Key(parse, stocks[j])
  }

  /** Inserts `s` into a sorted sequence after every stock with a smaller key. */
  function Insert(s: Stock, sorted: seq<Stock>, parse: Parser): (r: seq<Stock>)
    requires SortedByPrice(sorted, parse)
    ensures multiset(r) == multiset(sorted) + multiset{s}
    ensures forall i :: 0 <= i < |r| ==> r[i] == s || r[i] in sorted
    ensures SortedByPrice(r, parse)
  {
    if |sorted| == 0 then [s]
    else if Key(parse, s) <= Key(parse, sorted[0]) then [s] + sorted
    else
      var rest := Insert(s, sorted[1..], parse);
      InsertBehindHead(s, sorted, rest, parse);
      [sorted[0]] + rest
  }

  /** Putting the head back in front of the insertion into the tail gives an
      insertion into the whole sequence. */
  lemma InsertBehindHead(s: Stock, sorted: seq<Stock>, rest: seq<Stock>, parse: Parser)
    requires SortedByPrice(sorted, parse) && |sorted| > 0
    requires Key(parse, sorted[0]) <= Key(parse, s)
    requires multiset(rest) == multiset(sorted[1..]) + multiset{s}
    requires forall i :: 0 <= i < |rest| ==> rest[i] == s || rest[i] in sorted[1..]
    requires SortedByPrice(rest, parse)
    ensures var r := [sorted[0]] + rest;
            && multiset(r) == multiset(sorted) + multiset{s}
            && (forall i :: 0 <= i < |r| ==> r[i] == s || r[i] in sorted)
            && SortedByPrice(r, parse)
  {
    var r := [sorted[0]] + rest;
    assert sorted == [sorted[0]] + sorted[1..];
    HeadBelowRest(s, sorted, rest, parse);
    forall i | 0 <= i < |r|
      ensures r[i] == s || r[i] in sorted
    {
      if i > 0 {
        assert r[i] == rest[i - 1];
      }
    }
    forall i, j | 0 <= i < j < |r|
      ensures Key(parse, r[i]) <= Key(parse, r[j])
    {
      assert r[j] == rest[j - 1];
      if i > 0 {
        assert r[i] == rest[i - 1];
      }
    }
  }

  /** Every element of the insertion into the tail is at least the head. */
  lemma HeadBelowRest(s: Stock, sorted: seq<Stock>, rest: seq<Stock>, parse: Parser)
    requires SortedByPrice(sorted, parse) && |sorted| > 0
    requires Key(parse, sorted[0]) <= Key(parse, s)
    requires forall i :: 0 <= i < |rest| ==> rest[i] == s || rest[i] in sorted[1..]
    ensures forall i :: 0 <= i < |rest| ==> Key(parse, sorted[0]) <= Key(parse, rest[i])
  {
    forall i | 0 <= i < |rest|
      ensures Key(parse, sorted[0]) <= Key(parse, rest[i])
    {
      if rest[i] != s {
        HeadIsLeast(sorted, rest[i], parse);
      }
    }
  }

  /** The first stock of a sorted sequence has the least price. */
  lemma HeadIsLeast(sorted: seq<Stock>, x: Stock, parse: Parser)
    requires SortedByPrice(sorted, parse) && x in sorted
    ensures Key(parse, sorted[0]) <= Key(parse, x)
  {
    var j :| 0 <= j < |sorted| && sorted[j] == x;
    if j > 0 {
      assert Key(parse, sorted[0]) <= Key(parse, sorted[j]);
    }
  }

  /** The stocks in ascending order of price. */
  function SortByPrice(stocks: seq<Stock>, parse: Parser): (r: seq<Stock>)
    ensures multiset(r) == multiset(stocks)
    ensures SortedByPrice(r, parse)
  {
    if |stocks| == 0 then []
    else
      assert stocks == [stocks[0]] + stocks[1..];
      Insert(stocks[0], SortByPrice(stocks[1..], parse), parse)
  }

  /** The prices, position by position. */
  function Keys(stocks: seq<Stock>, parse: Parser): (ks: seq<real>)
    ensures |ks| == |stocks|
  {
    if |stocks| == 0 then [] else [Key(parse, stocks[0])] + Keys(stocks[1..], parse)
  }

  lemma {:induction false} KeysIndex(stocks: seq<Stock>, parse: Parser, i: nat)
    requires i < |stocks|
    ensures Keys(stocks, parse)[i] == Key(parse, stocks[i])
    decreases i
  {
    if i > 0 {
      KeysIndex(stocks[1..], parse, i - 1);
    }
  }

  predicate NonDecreasing(xs: seq<real>) {
    forall i, j :: 0 <= i < j < |xs| ==> xs[i] <= xs[j]
  }

  lemma MultisetRemove<T>(s: seq<T>, j: nat)
    requires j < |s|
    ensures multiset(s[..j] + s[j + 1..]) == multiset(s) - multiset{s[j]}
  {
    assert s == s[..j] + [s[j]] + s[j + 1..];
  }

  lemma MultisetTail<T>(s: seq<T>)
    requires |s| > 0
    ensures multiset(s[1..]) == multiset(s) - multiset{s[0]}
  {
    assert s == [s[0]] + s[1..];
  }

  /** Rearranging the stocks rearranges their prices the same way. */
  lemma {:induction false} KeysMultiset(a: seq<Stock>, b: seq<Stock>, parse: Parser)
    requires multiset(a) == multiset(b)
    ensures multiset(Keys(a, parse)) == multiset(Keys(b, parse))
    decreases |a|
  {
    if |a| == 0 {
      assert |multiset(b)| == 0;
    } else {
      var j := MatchFirst(a, b);
      var b' := b[..j] + b[j + 1..];
      KeysMultiset(a[1..], b', parse);
      KeysRemove(b, j, parse);
      KeysRemove(a, 0, parse);
      assert a[..0] + a[1..] == a[1..];
    }
  }

  /** Where the first element of `a` sits in a rearrangement `b`, and what is
      left of both once it is removed. */
  lemma MatchFirst(a: seq<Stock>, b: seq<Stock>) returns (j: nat)
    requires multiset(a) == multiset(b) && |a| > 0
    ensures j < |b| && b[j] == a[0]
    ensures multiset(a[1..]) == multiset(b[..j] + b[j + 1..])
  {
    assert a[0] in multiset(b);
    j :| 0 <= j < |b| && b[j] == a[0];
    MultisetTail(a);
    MultisetRemove(b, j);
  }

  /** Removing one stock removes its price. */
  lemma KeysRemove(s: seq<Stock>, j: nat, parse: Parser)
    requires j < |s|
    ensures multiset(Keys(s, parse)) == multiset(Keys(s[..j] + s[j + 1..], parse)) + multiset{Key(parse, s[j])}
  {
    var pre, post := s[..j], s[j + 1..];
    SplitAround(s, j);
    KeysCons(s[j], post, parse);
    KeysAppend(pre, [s[j]] + post, parse);
    KeysAppend(pre, post, parse);
    MultisetInsert(Keys(pre, parse), Key(parse, s[j]), Keys(post, parse));
  }

  lemma SplitAround<T>(s: seq<T>, j: nat)
    requires j < |s|
    ensures s == s[..j] + ([s[j]] + s[j + 1..])
  {
  }

  lemma KeysCons(x: Stock, post: seq<Stock>, parse: Parser)
    ensures Keys([x] + post, parse) == [Key(parse, x)] + Keys(post, parse)
  {
    assert ([x] + post)[1..] == post;
  }

  lemma MultisetInsert<T>(a: seq<T>, x: T, b: seq<T>)
    ensures multiset(a + ([x] + b)) == multiset(a + b) + multiset{x}
  {
  }

  lemma {:induction false} KeysAppend(a: seq<Stock>, b: seq<Stock>, parse: Parser)
    ensures Keys(a + b, parse) == Keys(a, parse) + Keys(b, parse)
    decreases |a|
  {
    if |a| == 0 {
      assert a + b == b;
    } else {
      var ab := a + b;
      assert ab[0] == a[0] && ab[1..] == a[1..] + b;
      KeysAppend(a[1..], b, parse);
      KeysHead(ab, parse);
      KeysHead(a, parse);
      assert [Key(parse, a[0])] + (Keys(a[1..], parse) + Keys(b, parse))
          == ([Key(parse, a[0])] + Keys(a[1..], parse)) + Keys(b, parse);
    }
  }

  lemma KeysHead(s: seq<Stock>, parse: Parser)
    requires |s| > 0
    ensures Keys(s, parse) == [Key(parse, s[0])] + Keys(s[1..], parse)
  {
  }

  /** The first element of a non-decreasing sequence is its least. */
  lemma FirstIsLeast(a: seq<real>, x: real)
    requires NonDecreasing(a) && x in a
    ensures a[0] <= x
  {
    var k :| 0 <= k < |a| && a[k] == x;
    if k > 0 {
      assert a[0] <= a[k];
    }
  }

  lemma TailNonDecreasing(a: seq<real>)
    requires NonDecreasing(a) && |a| > 0
    ensures NonDecreasing(a[1..])
  {
    forall i, i' | 0 <= i < i' < |a| - 1
      ensures a[1..][i] <= a[1..][i']
    {
      assert a[i + 1] <= a[i' + 1];
    }
  }

  /** Two non-decreasing sequences holding the same values are equal. */
  lemma {:induction false} SortedUnique(a: seq<real>, b: seq<real>)
    requires NonDecreasing(a) && NonDecreasing(b)
    requires multiset(a) == multiset(b)
    ensures a == b
    decreases |a|
  {
    if |a| == 0 {
      assert |multiset(b)| == 0;
    } else {
      SameLeast(a, b);
      MultisetTail(a);
      MultisetTail(b);
      TailNonDecreasing(a);
      TailNonDecreasing(b);
      SortedUnique(a[1..], b[1..]);
      SameHeadAndTail(a, b);
    }
  }

  /** Two non-decreasing sequences holding the same values start with the
      same value. */
  lemma SameLeast(a: seq<real>, b: seq<real>)
    requires NonDecreasing(a) && NonDecreasing(b)
    requires multiset(a) == multiset(b) && |a| > 0
    ensures |b| > 0 && a[0] == b[0]
  {
    assert |b| == |multiset(b)| == |multiset(a)| == |a|;
    assert a[0] in multiset(b) && b[0] in multiset(a);
    FirstIsLeast(b, a[0]);
    FirstIsLeast(a, b[0]);
  }

  lemma SameHeadAndTail<T>(a: seq<T>, b: seq<T>)
    requires |a| > 0 && |b| > 0 && a[0] == b[0] && a[1..] == b[1..]
    ensures a == b
  {
    assert a == [a[0]] + a[1..];
    assert b == [b[0]] + b[1..];
  }

  /** The order of the prices after sorting does not depend on which sorted
      permutation the sort picks. */
  lemma SortedKeysUnique(a: seq<Stock>, b: seq<Stock>, parse: Parser)
    requires multiset(a) == multiset(b)
    requires SortedByPrice(a, parse) && SortedByPrice(b, parse)
    ensures Keys(a, parse) == Keys(b, parse)
  {
    KeysMultiset(a, b, parse);
    SortedKeysNonDecreasing(a, parse);
    SortedKeysNonDecreasing(b, parse);
    SortedUnique(Keys(a, parse), Keys(b, parse));
  }

  lemma SortedKeysNonDecreasing(stocks: seq<Stock>, parse: Parser)
    requires SortedByPrice(stocks, parse)
    ensures NonDecreasing(Keys(stocks, parse))
  {
    forall i, j | 0 <= i < j < |stocks|
      ensures Keys(stocks, parse)[i] <= Keys(stocks, parse)[j]
    {
      KeysIndex(stocks, parse, i);
      KeysIndex(stocks, parse, j);
    }
  }
}
