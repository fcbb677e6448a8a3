/** When the order of the lines in a sale matters. The stock service does not check the sign of a quantity. */
module SaleOrder {
  import opened Quantities

  /** No product has both a positive and a negative line. */
  ghost predicate OneSign(lines: seq<Line>)
  {
    forall i, j :: 0 <= i < |lines| && 0 <= j < |lines| && lines[i].product == lines[j].product ==>
      !(lines[i].num > 0 && lines[j].num < 0)
  }

  ghost predicate NotNegative(stock: Stock) { forall p :: p in stock ==> stock[p] >= 0 }

  ghost predicate OrderIndependent(lines: seq<Line>)
  {
    forall stock, other :: NotNegative(stock) && multiset(other) == multiset(lines) ==>
      (Sellable(stock, other) <==> Sellable(stock, lines))
  }

  /** The lines with positive quantities, and the others. */
  function Rising(lines: seq<Line>): seq<Line>
  {
    if lines == [] then []
    else
      var last := lines[|lines| - 1];
      Rising(lines[..|lines| - 1]) + if last.num > 0 then [last] else []
  }

  function Falling(lines: seq<Line>): seq<Line>
  {
    if lines == [] then []
    else
      var last := lines[|lines| - 1];
      Falling(lines[..|lines| - 1]) + if last.num > 0 then [] else [last]
  }

  ghost predicate NotPositive(lines: seq<Line>)
  {
    forall i :: 0 <= i < |lines| ==> lines[i].num <= 0
  }

  lemma {:induction false} SplitBySign(lines: seq<Line>)
    ensures multiset(Falling(lines)) + multiset(Rising(lines)) == multiset(lines)
  {
    if lines != [] {
      SplitBySign(lines[..|lines| - 1]);
      LastApart(lines);
      if lines[|lines| - 1].num > 0 {
        LastApart(Rising(lines));
      } else {
        LastApart(Falling(lines));
      }
    }
  }

  lemma {:induction false} Signs(lines: seq<Line>)
    ensures Positive(Rising(lines)) && NotPositive(Falling(lines))
  {
    if lines != [] {
      Signs(lines[..|lines| - 1]);
    }
  }

  /** A prefix asks for at most the whole list's total of a product whose lines are not negative, and for nothing of
      one whose lines are not positive. */
  lemma {:induction false} PrefixOfOneSign(lines: seq<Line>, k: nat, p: int)
    requires OneSign(lines) && k <= |lines|
    ensures Total(lines[..k], p) <= Total(lines, p) || (Total(lines[..k], p) <= 0 && Total(lines, p) <= 0)
    decreases |lines|
  {
    var n := |lines|;
    if i :| 0 <= i < n && lines[i].product == p && lines[i].num < 0 {
      TotalFalls(lines, p);
      TotalFalls(lines[..k], p);
    } else {
      assert lines == lines[..k] + lines[k..];
      TotalConcat(lines[..k], lines[k..], p);
      TotalRises(lines[k..], p);
    }
  }

  lemma {:induction false} TotalFalls(lines: seq<Line>, p: int)
    requires forall i :: 0 <= i < |lines| && lines[i].product == p ==> lines[i].num <= 0
    ensures Total(lines, p) <= 0
  {
    if lines != [] {
      TotalFalls(lines[..|lines| - 1], p);
    }
  }

  lemma {:induction false} TotalRises(lines: seq<Line>, p: int)
    requires forall i :: 0 <= i < |lines| && lines[i].product == p ==> lines[i].num >= 0
    ensures Total(lines, p) >= 0
  {
    if lines != [] {
      TotalRises(lines[..|lines| - 1], p);
    }
  }

  ghost predicate ServesTotals(stock: Stock, lines: seq<Line>)
  {
    forall i :: 0 <= i < |lines| ==>
      lines[i].product in stock && Total(lines, lines[i].product) <= stock[lines[i].product]
  }

  /** With one sign per product the verdict is by totals. */
  lemma OneSignMeansTotals(stock: Stock, lines: seq<Line>)
    requires NotNegative(stock) && OneSign(lines)
    ensures Sellable(stock, lines) <==> ServesTotals(stock, lines)
  {
    if Sellable(stock, lines) {
      forall i | 0 <= i < |lines|
        ensures lines[i].product in stock && Total(lines, lines[i].product) <= stock[lines[i].product]
      {
        var k := LastPosition(lines, lines[i].product, i);
        assert Enough(stock, lines, k);
        TotalUpToLast(lines, lines[i].product, k);
      }
    }
    if ServesTotals(stock, lines) {
      forall i | 0 <= i < |lines| ensures Enough(stock, lines, i) {
        PrefixOfOneSign(lines, i + 1, lines[i].product);
      }
    }
  }

  lemma TotalsIgnoreOrder(stock: Stock, a: seq<Line>, b: seq<Line>)
    requires multiset(a) == multiset(b)
    ensures ServesTotals(stock, a) ==> ServesTotals(stock, b)
    ensures OneSign(a) ==> OneSign(b)
  {
    forall i | 0 <= i < |b| ensures b[i] in a {
      assert b[i] in multiset(a);
    }
    forall p ensures Total(a, p) == Total(b, p) {
      TotalPermutation(a, b, p);
    }
  }

  ghost function Products(lines: seq<Line>): set<int>
  {
    set i | 0 <= i < |lines| :: lines[i].product
  }

  /** Enough of p for all its lines together but not for the positive ones alone, and enough of everything else. */
  ghost function Tight(lines: seq<Line>, p: int): Stock
  {
    map q | q in Products(lines) ::
      if q != p then Total(Rising(lines), q) else if Total(lines, p) > 0 then Total(lines, p) else 0
  }

  lemma Parts(lines: seq<Line>, q: int)
    ensures Total(lines, q) == Total(Falling(lines), q) + Total(Rising(lines), q)
    ensures Total(Falling(lines), q) <= 0 <= Total(Rising(lines), q)
  {
    SplitBySign(lines);
    Signs(lines);
    TotalPermutation(lines, Falling(lines) + Rising(lines), q);
    TotalConcat(Falling(lines), Rising(lines), q);
    TotalFalls(Falling(lines), q);
    TotalNonNegative(Rising(lines), q);
  }

  lemma ListedSomewhere(lines: seq<Line>, line: Line)
    requires line in Falling(lines) || line in Rising(lines)
    ensures line.product in Products(lines)
  {
    SplitBySign(lines);
    assert line in multiset(Falling(lines)) + multiset(Rising(lines));
    assert line in lines;
  }

  lemma TightIsNotNegative(lines: seq<Line>, p: int)
    ensures NotNegative(Tight(lines, p))
  {
    forall q | q in Tight(lines, p) ensures Tight(lines, p)[q] >= 0 {
      Parts(lines, q);
    }
  }

  lemma FallingPart(lines: seq<Line>, p: int, i: nat)
    requires i < |Falling(lines)|
    ensures Enough(Tight(lines, p), Falling(lines) + Rising(lines), i)
  {
    var down, all := Falling(lines), Falling(lines) + Rising(lines);
    ListedSomewhere(lines, down[i]);
    Parts(lines, down[i].product);
    Signs(lines);
    assert all[..i + 1] == down[..i + 1] && all[i] == down[i];
    TotalFalls(down[..i + 1], down[i].product);
  }

  lemma TotalUpTo(down: seq<Line>, up: seq<Line>, k: nat, p: int)
    requires Positive(up) && k < |up|
    ensures Total((down + up)[..|down| + k + 1], p) <= Total(down, p) + Total(up, p)
  {
    assert (down + up)[..|down| + k + 1] == down + up[..k + 1];
    TotalConcat(down, up[..k + 1], p);
    TotalPrefix(up, k + 1, p);
  }

  lemma RisingPart(lines: seq<Line>, p: int, k: nat)
    requires k < |Rising(lines)|
    ensures Enough(Tight(lines, p), Falling(lines) + Rising(lines), |Falling(lines)| + k)
  {
    var down, up := Falling(lines), Rising(lines);
    ListedSomewhere(lines, up[k]);
    Parts(lines, up[k].product);
    Signs(lines);
    TotalUpTo(down, up, k, up[k].product);
    assert (down + up)[|down| + k] == up[k];
  }

  lemma FallingFirstIsServed(lines: seq<Line>, p: int)
    ensures Sellable(Tight(lines, p), Falling(lines) + Rising(lines))
  {
    forall i | 0 <= i < |Falling(lines) + Rising(lines)|
      ensures Enough(Tight(lines, p), Falling(lines) + Rising(lines), i)
    {
      if i < |Falling(lines)| {
        FallingPart(lines, p, i);
      } else {
        RisingPart(lines, p, i - |Falling(lines)|);
      }
    }
  }

  lemma Disagree(lines: seq<Line>, stock: Stock, a: seq<Line>, b: seq<Line>)
    requires NotNegative(stock) && Sellable(stock, a) && !Sellable(stock, b)
    requires multiset(a) == multiset(lines) && multiset(b) == multiset(lines)
    ensures !OrderIndependent(lines)
  {
    var other := if Sellable(stock, lines) then b else a;
    assert multiset(other) == multiset(lines) && (Sellable(stock, other) <==> !Sellable(stock, lines));
  }

  /** With the positive lines first, p's last positive line is not served. */
  lemma RisingFirst(lines: seq<Line>, p: int, k: nat)
    requires k < |Rising(lines)| && Rising(lines)[k].product == p
    requires Total(Falling(lines), p) < 0 && Total(Rising(lines), p) > 0
    ensures !Sellable(Tight(lines, p), Rising(lines) + Falling(lines))
  {
    var up := Rising(lines);
    var last := LastPosition(up, p, k);
    TotalUpToLast(up, p, last);
    Parts(lines, p);
    assert (up + Falling(lines))[..last + 1] == up[..last + 1];
    assert !Enough(Tight(lines, p), up + Falling(lines), last);
  }

  lemma {:induction false} HasSign(lines: seq<Line>, i: nat)
    requires i < |lines|
    ensures lines[i].num > 0 ==> lines[i] in Rising(lines)
    ensures lines[i].num <= 0 ==> lines[i] in Falling(lines)
  {
    if i < |lines| - 1 {
      HasSign(lines[..|lines| - 1], i);
    }
  }

  lemma {:induction false} StrictlyFalls(lines: seq<Line>, i: nat)
    requires NotPositive(lines) && i < |lines| && lines[i].num < 0
    ensures Total(lines, lines[i].product) < 0
  {
    var init := lines[..|lines| - 1];
    TotalFalls(init, lines[i].product);
    if i < |lines| - 1 {
      StrictlyFalls(init, i);
    }
  }

  /** A product with lines of both signs: some stock serves the lines in one order and not in another. */
  lemma MixedSignsDependOnOrder(lines: seq<Line>, i: nat, j: nat)
    requires i < |lines| && j < |lines| && lines[i].product == lines[j].product
    requires lines[i].num > 0 && lines[j].num < 0
    ensures !OrderIndependent(lines)
  {
    var p, down, up := lines[i].product, Falling(lines), Rising(lines);
    HasSign(lines, i);
    HasSign(lines, j);
    Signs(lines);
    var k :| 0 <= k < |up| && up[k] == lines[i];
    var l :| 0 <= l < |down| && down[l] == lines[j];
    StrictlyRises(up, k);
    StrictlyFalls(down, l);
    TightIsNotNegative(lines, p);
    FallingFirstIsServed(lines, p);
    RisingFirst(lines, p, k);
    SplitBySign(lines);
    assert multiset(down + up) == multiset(down) + multiset(up);
    assert multiset(up + down) == multiset(up) + multiset(down);
    Disagree(lines, Tight(lines, p), down + up, up + down);
  }

  /** The order of the lines never matters, whatever the stock, exactly when no product has both a positive and a
      negative line. */
  lemma OrderIndependentIffOneSign(lines: seq<Line>)
    ensures OrderIndependent(lines) <==> OneSign(lines)
  {
    if OneSign(lines) {
      forall stock, other | NotNegative(stock) && multiset(other) == multiset(lines)
        ensures Sellable(stock, other) <==> Sellable(stock, lines)
      {
        TotalsIgnoreOrder(stock, lines, other);
        TotalsIgnoreOrder(stock, other, lines);
        OneSignMeansTotals(stock, lines);
        OneSignMeansTotals(stock, other);
      }
    } else {
      var i, j :| 0 <= i < |lines| && 0 <= j < |lines| && lines[i].product == lines[j].product &&
        lines[i].num > 0 && lines[j].num < 0;
      MixedSignsDependOnOrder(lines, i, j);
    }
  }
}
