/** What overlapping calls leave in the cart table: when interleaved runs are serial, when a product gets a second row,
    and when an add is lost. */
module OverlappingAdds {
  import opened CartRaces
  import opened Common
  import opened ShopCart
  import Purchase = Checkout
  import Quantities

  // ----- every run -----

  /** As long as no save was of a second row, the table has one row per account and product, whatever overlaps. */
  lemma OneRowPerProductUntilDoubled(s: State)
    requires Reachable(s) && !s.doubled
    ensures Valid(s.t)
  {
    ReachableInv(s);
  }

  /** So a checkout of what such a table lists is for exactly what its rows ask, given a complete catalogue reply. */
  lemma UndoubledCartsGiveFaithfulOrders(s: State, cart: seq<CartRow>, ids: seq<int>, account: int,
                                         products: seq<Purchase.Product>)
    requires Reachable(s) && !s.doubled && Purchase.ListsTable(cart, ids, s.t)
    ensures var lines := Purchase.AsLines(Purchase.Checked(cart, account));
            && Quantities.DistinctProducts(lines)
            && (Purchase.Complete(products, lines) ==> Purchase.Faithful(products, lines))
  {
    ReachableInv(s);
    Purchase.ValidTablesGiveFaithfulOrders(s.t, cart, ids, account, products);
  }

  /** And the save that ends this is one beside whose id there is another row of its account and product. */
  lemma SaveDoublesIff(s: State, c: nat)
    requires Reachable(s) && !s.doubled && Enabled(s, Put(c))
    ensures Valid(Apply(s, Put(c)).t) <==> Fits(s.t, s.calls[c].req, s.calls[c].found)
  {
    ReachableInv(s);
    assert CallFine(s.t, s.calls[c]);
    SaveKeepsValidIff(s.t, s.calls[c].req, s.calls[c].found);
  }

  /** A save that fits adds its quantity to what the table holds exactly when that is still the quantity it found. */
  lemma AddIsKeptIff(s: State, c: nat)
    requires Reachable(s) && !s.doubled && Enabled(s, Put(c)) && Fits(s.t, s.calls[c].req, s.calls[c].found)
    ensures var req, t' := s.calls[c].req, Apply(s, Put(c)).t;
            var a, p := req.account, req.product;
            Lookup(t', a, p) == Asked(Lookup(s.t, a, p), a, p, Add(req)) <==>
            NumSeen(s.calls[c].found) == NumNow(s.t, a, p)
  {
    var req, found, t' := s.calls[c].req, s.calls[c].found, Apply(s, Put(c)).t;
    ReachableInv(s);
    assert CallFine(s.t, s.calls[c]);
    SaveKeepsValidIff(s.t, req, found);
    LookupIs(t', Target(s.t, req, found));
  }

  /** Calls that find what they have read run as if one after another: all that is proved of whole calls holds. */
  lemma UndisturbedRunsAreSerial(s: State)
    requires Reachable(s) && !s.moved
    ensures Serializable(s) && Valid(s.t)
  {
    ReachableInv(s);
  }

  /** The save that first breaks this is one that finds another id to write, or another quantity, than it did. */
  lemma SaveIsSerialIff(s: State, c: nat)
    requires Reachable(s) && !s.moved && Enabled(s, Put(c))
    ensures Serializable(Apply(s, Put(c))) <==> AsFound(s.t, s.calls[c].req, s.calls[c].found)
  {
    ReachableInv(s);
    assert CallFine(s.t, s.calls[c]);
    SaveIsWholeAddIff(s.t, s.calls[c].req, s.calls[c].found);
    RunOneMore(s.start, s.log, Called(Add(s.calls[c].req)));
    OrdersOneMore(s.start, s.log, Called(Add(s.calls[c].req)));
  }

  /** A save right after its query is never such a one. */
  lemma SaveAtOnceIsSerial(t: Table, req: Request, found: Option<Found>)
    requires Valid(t) && Finds(t, req, found)
    ensures AsFound(t, req, found) && Saved(t, req, found) == Effect(t, Add(req))
  {
    SaveIsWholeAddIff(t, req, found);
  }

  // ----- runs that go wrong -----

  const EMPTY: Table := Table(map[], 1)

  const SHOP: State := State(EMPTY, EMPTY, [], [], false, false)

  /** One piece of a product for account 7, checked. */
  function One(product: int): Request { Request(0, 7, product, 1, true) }

  function RowOf(product: int, num: int): CartRow { CartRow(7, product, num, true) }

  lemma Opened()
    ensures Reachable(SHOP)
  {
    assert Init(SHOP) && Exec(SHOP, []) == Some(SHOP);
  }

  /** Two adds that look before either saves. */
  lemma AddsOverlap(s: State, req: Request, found: Option<Found>) returns (s': State)
    requires Reachable(s) && Finds(s.t, req, found)
    ensures Reachable(s') && s'.t == Saved(Saved(s.t, req, found), req, found)
    ensures s'.log == s.log + [Called(Add(req))] + [Called(Add(req))]
  {
    var c := |s.calls|;
    ReachableStep(s, Look(req, found));
    s' := Apply(s, Look(req, found));
    ReachableStep(s', Look(req, found));
    s' := Apply(s', Look(req, found));
    ReachableStep(s', Put(c));
    s' := Apply(s', Put(c));
    ReachableStep(s', Put(c + 1));
    s' := Apply(s', Put(c + 1));
  }

  /** Two overlapping adds of a product that the cart does not hold yet leave two rows for it. */
  lemma OverlappingAddsLeaveTwoRows() returns (s: State)
    ensures Reachable(s) && s.t.rows == map[1 := RowOf(1, 1), 2 := RowOf(1, 1)] && !Valid(s.t)
    ensures s.log == [Called(Add(One(1))), Called(Add(One(1)))]
  {
    Opened();
    s := AddsOverlap(SHOP, One(1), None);
    assert s.t.rows == map[1 := RowOf(1, 1), 2 := RowOf(1, 1)];
    assert Has(s.t.rows[2], s.t.rows[1].account, s.t.rows[1].product);
  }

  /** A checkout of those rows is not for what the cart asks: it orders one of the two pieces. */
  lemma TwoRowsAreOrderedAsOne(products: seq<Purchase.Product>)
    ensures var cart, lines := [RowOf(1, 1), RowOf(1, 1)], Purchase.AsLines([RowOf(1, 1), RowOf(1, 1)]);
            && Purchase.Checked(cart, 7) == cart && !Quantities.DistinctProducts(lines)
            && (Purchase.Complete(products, lines) ==> !Purchase.Faithful(products, lines))
  {
    var cart := [RowOf(1, 1), RowOf(1, 1)];
    assert cart[..1] == [RowOf(1, 1)] && cart[..1][..0] == [];
    assert Purchase.Checked(cart[..1], 7) == [RowOf(1, 1)];
    var lines := Purchase.AsLines(cart);
    assert lines[0].product == lines[1].product;
    if Purchase.Complete(products, lines) {
      Purchase.FaithfulIffOneRowPerProduct(products, lines);
    }
  }

  lemma OneRow() returns (s: State)
    ensures Reachable(s) && s.start == EMPTY && s.t == Table(map[1 := RowOf(1, 1)], 2) && |s.calls| == 1
    ensures s.log == [Called(Add(One(1)))]
  {
    Opened();
    ReachableStep(SHOP, Look(One(1), None));
    s := Apply(SHOP, Look(One(1), None));
    ReachableStep(s, Put(0));
    s := Apply(s, Put(0));
  }

  /** Two overlapping adds to a row that is there leave the quantity of one: after three adds of a piece the row has
      two. */
  lemma OverlappingAddsLoseOne() returns (s: State)
    ensures Reachable(s) && s.log == [Called(Add(One(1))), Called(Add(One(1))), Called(Add(One(1)))]
    ensures s.t.rows == map[1 := RowOf(1, 2)]
  {
    s := OneRow();
    var found := Some(Found(1, RowOf(1, 1)));
    s := AddsOverlap(s, One(1), found);
  }
}
