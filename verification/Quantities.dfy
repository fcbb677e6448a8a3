/** Order lines (a product and a quantity) and what a list of them does to a stock map.
    Everything here is shared: the stock service sells and returns such lists, checkout builds
    them from the cart, and the order saga moves them between stock and ledger. */
module Quantities {

  datatype Line = Line(product: int, num: int)

  type Stock = map<int, int>

  /** How much of product p the list asks for, over all its positions. */
  function Total(lines: seq<Line>, p: int): int
  {
    if lines == [] then 0
    else
      var last := lines[|lines| - 1];
      Total(lines[..|lines| - 1], p) + if last.product == p then last.num else 0
  }

  /** The quantity at p's last position in the list, 0 when p is not listed. */
  function LastNum(lines: seq<Line>, p: int): int
  {
    if lines == [] then 0
    else
      var last := lines[|lines| - 1];
      if last.product == p then last.num else LastNum(lines[..|lines| - 1], p)
  }

  /** Position i can be served after the positions before it have been. */
  ghost predicate Enough(stock: Stock, lines: seq<Line>, i: nat)
    requires i < |lines|
  {
    lines[i].product in stock && Total(lines[..i + 1], lines[i].product) <= stock[lines[i].product]
  }

  ghost predicate Sellable(stock: Stock, lines: seq<Line>)
  {
    forall i :: 0 <= i < |lines| ==> Enough(stock, lines, i)
  }

  ghost predicate AllListed(stock: Stock, lines: seq<Line>)
  {
    forall i :: 0 <= i < |lines| ==> lines[i].product in stock
  }

  ghost function Subtract(stock: Stock, lines: seq<Line>): Stock
  {
    map p | p in stock :: stock[p] - Total(lines, p)
  }

  ghost function Add(stock: Stock, lines: seq<Line>): Stock
  {
    map p | p in stock :: stock[p] + Total(lines, p)
  }

  ghost predicate NonNegative(lines: seq<Line>)
  {
    forall i :: 0 <= i < |lines| ==> lines[i].num >= 0
  }

  ghost predicate Positive(lines: seq<Line>)
  {
    forall i :: 0 <= i < |lines| ==> lines[i].num > 0
  }

  ghost predicate DistinctProducts(lines: seq<Line>)
  {
    forall i, j :: 0 <= i < j < |lines| ==> lines[i].product != lines[j].product
  }

  lemma LastApart<T>(s: seq<T>)
    requires s != []
    ensures multiset(s) == multiset(s[..|s| - 1]) + multiset{s[|s| - 1]}
  {
    assert s == s[..|s| - 1] + [s[|s| - 1]];
  }

  lemma TotalStep(lines: seq<Line>, i: nat, p: int)
    requires i < |lines|
    ensures Total(lines[..i + 1], p) == Total(lines[..i], p) + if lines[i].product == p then lines[i].num else 0
  {
    assert lines[..i + 1][..i] == lines[..i];
  }

  lemma TotalStepAll(lines: seq<Line>, i: nat)
    requires i < |lines|
    ensures forall p :: Total(lines[..i + 1], p) ==
                        Total(lines[..i], p) + if lines[i].product == p then lines[i].num else 0
  {
    forall p ensures Total(lines[..i + 1], p) ==
                     Total(lines[..i], p) + if lines[i].product == p then lines[i].num else 0
    {
      TotalStep(lines, i, p);
    }
  }

  lemma {:induction false} TotalConcat(a: seq<Line>, b: seq<Line>, p: int)
    ensures Total(a + b, p) == Total(a, p) + Total(b, p)
  {
    if b == [] {
      assert a + b == a;
    } else {
      assert (a + b)[..|a + b| - 1] == a + b[..|b| - 1];
      TotalConcat(a, b[..|b| - 1], p);
    }
  }

  lemma {:induction false} TotalNonNegative(lines: seq<Line>, p: int)
    requires NonNegative(lines)
    ensures Total(lines, p) >= 0
  {
    if lines != [] {
      TotalNonNegative(lines[..|lines| - 1], p);
    }
  }

  lemma {:induction false} TotalAbsent(lines: seq<Line>, p: int)
    requires forall i :: 0 <= i < |lines| ==> lines[i].product != p
    ensures Total(lines, p) == 0
  {
    if lines != [] {
      TotalAbsent(lines[..|lines| - 1], p);
    }
  }

  lemma {:induction false} AbsentLastNum(lines: seq<Line>, p: int)
    requires forall i :: 0 <= i < |lines| ==> lines[i].product != p
    ensures LastNum(lines, p) == 0
  {
    if lines != [] {
      AbsentLastNum(lines[..|lines| - 1], p);
    }
  }

  /** With non-negative quantities a prefix never asks for more than the whole list. */
  lemma TotalPrefix(lines: seq<Line>, k: nat, p: int)
    requires NonNegative(lines) && k <= |lines|
    ensures Total(lines[..k], p) <= Total(lines, p)
  {
    assert lines == lines[..k] + lines[k..];
    TotalConcat(lines[..k], lines[k..], p);
    TotalNonNegative(lines[k..], p);
  }

  lemma {:induction false} StrictlyRises(lines: seq<Line>, i: nat)
    requires Positive(lines) && i < |lines|
    ensures Total(lines, lines[i].product) > 0
  {
    var init := lines[..|lines| - 1];
    TotalNonNegative(init, lines[i].product);
    if i < |lines| - 1 {
      StrictlyRises(init, i);
    }
  }

  /** The total does not depend on the order of the lines. */
  lemma {:induction false} TotalPermutation(a: seq<Line>, b: seq<Line>, p: int)
    requires multiset(a) == multiset(b)
    ensures Total(a, p) == Total(b, p)
    decreases |a|
  {
    if a == [] {
      assert |multiset(b)| == 0;
    } else {
      var last := a[|a| - 1];
      assert last in multiset(b);
      var k :| 0 <= k < |b| && b[k] == last;
      var a', b' := a[..|a| - 1], b[..k] + b[k + 1..];
      assert a == a' + [last];
      TotalWithout(b, k, p);
      assert multiset(a') == multiset(a) - multiset{last} == multiset(b');
      TotalPermutation(a', b', p);
    }
  }

  lemma TotalWithout(lines: seq<Line>, k: nat, p: int)
    requires k < |lines|
    ensures multiset(lines[..k] + lines[k + 1..]) == multiset(lines) - multiset{lines[k]}
    ensures Total(lines, p) ==
            Total(lines[..k] + lines[k + 1..], p) + if lines[k].product == p then lines[k].num else 0
  {
    assert lines == lines[..k + 1] + lines[k + 1..] && lines[..k + 1] == lines[..k] + [lines[k]];
    TotalStep(lines, k, p);
    TotalConcat(lines[..k + 1], lines[k + 1..], p);
    TotalConcat(lines[..k], lines[k + 1..], p);
  }

  /** Selling position by position succeeds exactly when every listed product exists and its total
      over the whole list is in stock: repeated products are added up, not checked one by one. */
  lemma SellableMeansTotals(stock: Stock, lines: seq<Line>)
    requires NonNegative(lines)
    ensures Sellable(stock, lines) <==>
            forall i :: 0 <= i < |lines| ==>
              lines[i].product in stock && Total(lines, lines[i].product) <= stock[lines[i].product]
  {
    if Sellable(stock, lines) {
      forall i | 0 <= i < |lines|
        ensures lines[i].product in stock && Total(lines, lines[i].product) <= stock[lines[i].product]
      {
        var k := LastPosition(lines, lines[i].product, i);
        assert Enough(stock, lines, k);
        TotalUpToLast(lines, lines[i].product, k);
      }
    }
    if forall i :: 0 <= i < |lines| ==>
      lines[i].product in stock && Total(lines, lines[i].product) <= stock[lines[i].product]
    {
      forall i | 0 <= i < |lines| ensures Enough(stock, lines, i) {
        TotalPrefix(lines, i + 1, lines[i].product);
      }
    }
  }

  /** The verdict and the resulting stock of a sale depend only on which lines the list holds. */
  lemma SaleIgnoresOrder(stock: Stock, a: seq<Line>, b: seq<Line>)
    requires NonNegative(a) && multiset(a) == multiset(b)
    ensures Sellable(stock, a) <==> Sellable(stock, b)
    ensures Subtract(stock, a) == Subtract(stock, b)
  {
    forall i | 0 <= i < |b| ensures b[i] in a && b[i].num >= 0 {
      assert b[i] in multiset(a);
    }
    forall i | 0 <= i < |a| ensures a[i] in b {
      assert a[i] in multiset(b);
    }
    forall p ensures Total(a, p) == Total(b, p) {
      TotalPermutation(a, b, p);
    }
    SellableMeansTotals(stock, a);
    SellableMeansTotals(stock, b);
  }

  lemma {:induction false} LastPosition(lines: seq<Line>, p: int, i: nat) returns (k: nat)
    requires i < |lines| && lines[i].product == p
    ensures i <= k < |lines| && lines[k].product == p
    ensures forall j :: k < j < |lines| ==> lines[j].product != p
    decreases |lines| - i
  {
    if j :| i < j < |lines| && lines[j].product == p {
      k := LastPosition(lines, p, j);
    } else {
      k := i;
    }
  }

  lemma TotalUpToLast(lines: seq<Line>, p: int, k: nat)
    requires k < |lines| && forall j :: k < j < |lines| ==> lines[j].product != p
    ensures Total(lines[..k + 1], p) == Total(lines, p)
  {
    assert lines == lines[..k + 1] + lines[k + 1..];
    TotalConcat(lines[..k + 1], lines[k + 1..], p);
    TotalAbsent(lines[k + 1..], p);
  }

  /** For positive quantities, the last quantity listed for each product is also its total exactly
      when no product is listed twice. */
  lemma {:induction false} LastIsTotalIffDistinct(lines: seq<Line>)
    requires Positive(lines)
    ensures (forall p :: LastNum(lines, p) == Total(lines, p)) <==> DistinctProducts(lines)
  {
    if DistinctProducts(lines) {
      forall p ensures LastNum(lines, p) == Total(lines, p) {
        DistinctLastIsTotal(lines, p);
      }
    } else {
      var i, j :| 0 <= i < j < |lines| && lines[i].product == lines[j].product;
      RepeatedLastIsLess(lines, i, j);
    }
  }

  lemma {:induction false} DistinctLastIsTotal(lines: seq<Line>, p: int)
    requires DistinctProducts(lines)
    ensures LastNum(lines, p) == Total(lines, p)
  {
    if lines != [] {
      var init := lines[..|lines| - 1];
      if lines[|lines| - 1].product == p {
        TotalAbsent(init, p);
      } else {
        DistinctLastIsTotal(init, p);
      }
    }
  }

  lemma {:induction false} RepeatedLastIsLess(lines: seq<Line>, i: nat, j: nat)
    requires Positive(lines)
    requires i < j < |lines| && lines[i].product == lines[j].product
    ensures LastNum(lines, lines[i].product) < Total(lines, lines[i].product)
  {
    var p, n := lines[i].product, |lines| - 1;
    var init := lines[..n];
    if lines[n].product == p {
      TotalStep(init, i, p);
      TotalPrefix(init, i + 1, p);
      TotalNonNegative(init[..i], p);
    } else {
      RepeatedLastIsLess(init, i, j);
    }
  }
}
