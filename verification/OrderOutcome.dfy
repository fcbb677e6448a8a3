/** When an order comes about, what stock it takes and what it costs, told by cart rows, catalogue reply, stock and
    failing calls alone. */
module OrderOutcome {
  import opened Common
  import opened Quantities
  import opened Checkout
  import Orders = OrderService
  import Saga

  predicate IsTaken(row: CartRow, account: int) { row.account == account && row.checked }

  /** The product ids of the account's checked rows, in table order. */
  function RequestedIds(cart: seq<CartRow>, account: int): seq<int>
  {
    if cart == [] then []
    else
      var last := cart[|cart| - 1];
      RequestedIds(cart[..|cart| - 1], account) + if IsTaken(last, account) then [last.product] else []
  }

  /** The quantity in the account's last checked row of a product, 0 if there is none. */
  function Requested(cart: seq<CartRow>, account: int, p: int): int
  {
    if cart == [] then 0
    else
      var last := cart[|cart| - 1];
      if IsTaken(last, account) && last.product == p then last.num else Requested(cart[..|cart| - 1], account, p)
  }

  /** What a reply that lists a product n times takes of it at most, on the way to n times its quantity. */
  function AtMost(n: nat, num: int): int { if num >= 0 then n * num else num }

  /** Each replied product has a stock row that holds its replied total. */
  ghost predicate Holds(stock: Stock, products: seq<Product>, cart: seq<CartRow>, account: int)
  {
    forall i :: 0 <= i < |products| ==>
      var p := products[i].id;
      p in stock && AtMost(Occurrences(products, p), Requested(cart, account, p)) <= stock[p]
  }

  /** The body decodes, some row is checked, the catalogue answers, and the stock service can serve the reply. */
  ghost predicate TakesStock(body: Orders.Body, account: int, cart: seq<CartRow>, catalogue: Orders.Catalogue,
                             stock: Stock, f: Orders.Faults)
  {
    && body.Encoded?
    && (exists k :: 0 <= k < |cart| && IsTaken(cart[k], account))
    && catalogue(RequestedIds(cart, account)).Some?
    && !f.requestLost
    && Holds(stock, catalogue(RequestedIds(cart, account)).value, cart, account)
  }

  predicate NoCallFails(f: Orders.Faults)
  {
    && !f.requestLost && !f.replyLost && !f.saveFails && !f.linesFail && !f.clearFails
    && !f.producerFails && !f.startFails && !f.sendFails
  }

  ghost predicate Stored(body: Orders.Body, t: Orders.Tables)
  {
    body.Encoded? && exists k :: 0 <= k < |t.orders| && t.orders[k].no == body.item.no && t.orders[k].status == "unPay"
  }

  // ----- the same said by the model's functions -----

  lemma CheckedStep(cart: seq<CartRow>, account: int)
    requires cart != []
    ensures var init, last := Checked(cart[..|cart| - 1], account), cart[|cart| - 1];
            Checked(cart, account) == init + if IsTaken(last, account) then [last] else []
  {
  }

  lemma OneMoreRow(rows: seq<CartRow>, row: CartRow, p: int)
    ensures LastNum(AsLines(rows + [row]), p) == if row.product == p then row.num else LastNum(AsLines(rows), p)
    ensures Ids(rows + [row]) == Ids(rows) + [row.product]
  {
    assert AsLines(rows + [row])[..|rows|] == AsLines(rows);
  }

  lemma {:induction false} RequestedIsLast(cart: seq<CartRow>, account: int, p: int)
    ensures LastNum(AsLines(Checked(cart, account)), p) == Requested(cart, account, p)
    ensures Ids(Checked(cart, account)) == RequestedIds(cart, account)
  {
    if cart != [] {
      var n := |cart| - 1;
      RequestedIsLast(cart[..n], account, p);
      CheckedStep(cart, account);
      var rows := Checked(cart[..n], account);
      OneMoreRow(rows, cart[n], p);
      assert rows + [] == rows;
    }
  }

  lemma {:induction false} SomeTaken(cart: seq<CartRow>, account: int)
    ensures Checked(cart, account) != [] <==> exists k :: 0 <= k < |cart| && IsTaken(cart[k], account)
  {
    if cart != [] {
      var n := |cart| - 1;
      SomeTaken(cart[..n], account);
      if k :| 0 <= k < n && IsTaken(cart[k], account) {
        assert IsTaken(cart[..n][k], account);
      }
    }
  }

  /** For each of a product's occurrences there is a position in the list up to which there are so many. */
  lemma {:induction false} Occurrence(products: seq<Product>, p: int, n: nat) returns (i: nat)
    requires 0 < n <= Occurrences(products, p)
    ensures i < |products| && products[i].id == p && Occurrences(products[..i + 1], p) == n
  {
    var last := |products| - 1;
    if n == Occurrences(products, p) && products[last].id == p {
      i := last;
      assert products[..i + 1] == products;
    } else {
      i := Occurrence(products[..last], p, n);
      assert products[..last][..i + 1] == products[..i + 1];
    }
  }

  lemma {:induction false} OccursSoFar(products: seq<Product>, i: nat)
    requires i < |products|
    ensures 0 < Occurrences(products[..i + 1], products[i].id) <= Occurrences(products, products[i].id)
  {
    var n := |products| - 1;
    if i == n {
      assert products[..i + 1] == products;
    } else {
      OccursSoFar(products[..n], i);
      assert products[..n][..i + 1] == products[..i + 1];
    }
  }

  lemma Multiples(k: nat, n: nat, num: int)
    requires 0 < k <= n
    ensures k * num <= AtMost(n, num)
  {
    if num >= 0 {
      assert k * num <= n * num;
    } else {
      assert (k - 1) * num <= 0;
    }
  }

  /** Position i of the sale is served exactly when the stock holds what the reply has listed so far. */
  lemma EnoughIff(stock: Stock, products: seq<Product>, cart: seq<Line>, i: nat)
    requires i < |products|
    ensures var p := products[i].id;
            Enough(stock, OrderLines(products, cart), i) <==>
            p in stock && Occurrences(products[..i + 1], p) * LastNum(cart, p) <= stock[p]
  {
    OrderedTotal(products[..i + 1], cart, products[i].id);
    assert OrderLines(products, cart)[..i + 1] == OrderLines(products[..i + 1], cart);
  }

  lemma {:induction false} SellableIffHeld(stock: Stock, products: seq<Product>, cart: seq<CartRow>, account: int)
    ensures Sellable(stock, OrderLines(products, AsLines(Checked(cart, account)))) <==>
            Holds(stock, products, cart, account)
  {
    var lines := AsLines(Checked(cart, account));
    if Holds(stock, products, cart, account) {
      forall i | 0 <= i < |products| ensures Enough(stock, OrderLines(products, lines), i) {
        var p := products[i].id;
        RequestedIsLast(cart, account, p);
        OccursSoFar(products, i);
        Multiples(Occurrences(products[..i + 1], p), Occurrences(products, p), Requested(cart, account, p));
        EnoughIff(stock, products, lines, i);
      }
    }
    if Sellable(stock, OrderLines(products, lines)) {
      forall i | 0 <= i < |products|
        ensures var p := products[i].id;
                p in stock && AtMost(Occurrences(products, p), Requested(cart, account, p)) <= stock[p]
      {
        HeldIfEnough(stock, products, cart, account, i);
      }
    }
  }

  lemma {:induction false} HeldIfEnough(stock: Stock, products: seq<Product>, cart: seq<CartRow>, account: int, i: nat)
    requires Sellable(stock, OrderLines(products, AsLines(Checked(cart, account)))) && i < |products|
    ensures var p := products[i].id;
            p in stock && AtMost(Occurrences(products, p), Requested(cart, account, p)) <= stock[p]
  {
    var p, lines := products[i].id, AsLines(Checked(cart, account));
    RequestedIsLast(cart, account, p);
    OccursSoFar(products, i);
    var k := Occurrence(products, p, if Requested(cart, account, p) >= 0 then Occurrences(products, p) else 1);
    assert Enough(stock, OrderLines(products, lines), k);
    EnoughIff(stock, products, lines, k);
  }

  lemma SoldIffTaken(body: Orders.Body, account: int, cart: seq<CartRow>, catalogue: Orders.Catalogue, stock: Stock,
                     f: Orders.Faults)
    ensures var list := Orders.ToSell(body, account, cart, catalogue);
            && (Orders.Sold(list, stock, f) <==> TakesStock(body, account, cart, catalogue, stock, f))
            && (list.Some? ==>
                  && catalogue(RequestedIds(cart, account)).Some?
                  && list.value == OrderLines(catalogue(RequestedIds(cart, account)).value,
                                              AsLines(Checked(cart, account))))
  {
    RequestedIsLast(cart, account, 0);
    SomeTaken(cart, account);
    if catalogue(RequestedIds(cart, account)).Some? {
      SellableIffHeld(stock, catalogue(RequestedIds(cart, account)).value, cart, account);
    }
  }

  // ----- main results -----

  /** An order with a new number is stored, unpaid, exactly when its message decodes, the account has a checked row, the
      catalogue answers for the checked rows' products with at least one, the stock holds what the answer asks for, and
      no call fails. */
  lemma StoredIff(body: Orders.Body, account: int, catalogue: Orders.Catalogue, f: Orders.Faults, before: Orders.Tables,
                  stock: Stock, after: Orders.Tables, stock': Stock, amount: real, v: Saga.Verdict)
    requires Orders.Executed(body, account, catalogue, f, before, stock, after, stock', amount, v)
    requires !Stored(body, before)
    ensures Stored(body, after) <==>
            && TakesStock(body, account, before.cart, catalogue, stock, f) && NoCallFails(f)
            && catalogue(RequestedIds(before.cart, account)).value != []
  {
    SoldIffTaken(body, account, before.cart, catalogue, stock, f);
    var list := Orders.ToSell(body, account, before.cart, catalogue);
    if Orders.Sold(list, stock, f) && !f.replyLost && Orders.Written(list.value, f) {
      assert after.orders[|before.orders|].no == body.item.no;
    }
  }

  /** Stock falls exactly when the sale is asked for and can be served, whatever fails afterwards, and then by each
      product's quantity as often as the reply lists it. The stock is asked back exactly when it was taken, the reply
      arrived, and the order is not stored. */
  lemma StockFallsIff(body: Orders.Body, account: int, catalogue: Orders.Catalogue, f: Orders.Faults,
                      before: Orders.Tables, stock: Stock, after: Orders.Tables, stock': Stock, amount: real,
                      v: Saga.Verdict)
    requires Orders.Executed(body, account, catalogue, f, before, stock, after, stock', amount, v)
    requires !Stored(body, before)
    ensures stock'.Keys == stock.Keys
    ensures var cart := before.cart;
            forall p :: p in stock ==>
              stock'[p] == stock[p] -
                if TakesStock(body, account, cart, catalogue, stock, f)
                then Occurrences(catalogue(RequestedIds(cart, account)).value, p) * Requested(cart, account, p) else 0
    ensures v == Saga.CommitMessage <==>
            TakesStock(body, account, before.cart, catalogue, stock, f) && !f.replyLost && !Stored(body, after)
    ensures v != Saga.CommitMessage ==> v == Saga.RollbackMessage
  {
    var cart := before.cart;
    SoldIffTaken(body, account, cart, catalogue, stock, f);
    StoredIff(body, account, catalogue, f, before, stock, after, stock', amount, v);
    if TakesStock(body, account, cart, catalogue, stock, f) {
      var products := catalogue(RequestedIds(cart, account)).value;
      forall p | p in stock
        ensures stock'[p] == stock[p] - Occurrences(products, p) * Requested(cart, account, p)
      {
        RequestedIsLast(cart, account, p);
        OrderedTotal(products, AsLines(Checked(cart, account)), p);
      }
    }
  }

  /** The stock is taken, Sell's reply arrives with at least one line, and the database takes all that is written. */
  ghost predicate ReachesTimeout(body: Orders.Body, account: int, cart: seq<CartRow>, catalogue: Orders.Catalogue,
                                 stock: Stock, f: Orders.Faults)
  {
    && TakesStock(body, account, cart, catalogue, stock, f) && !f.replyLost
    && catalogue(RequestedIds(cart, account)).value != []
    && !f.saveFails && !f.linesFail && !f.clearFails
  }

  /** The timeout message is queued exactly when that point is reached and the broker takes it, reported or not; and the
      caller is told of a failure exactly when that point is reached and sending reports one. */
  lemma TimeoutQueuedIff(body: Orders.Body, account: int, catalogue: Orders.Catalogue, f: Orders.Faults,
                         before: Orders.Tables, stock: Stock, after: Orders.Tables, stock': Stock, amount: real,
                         v: Saga.Verdict)
    requires Orders.Executed(body, account, catalogue, f, before, stock, after, stock', amount, v)
    ensures after.timeouts == before.timeouts +
              if ReachesTimeout(body, account, before.cart, catalogue, stock, f) && !f.producerFails && !f.startFails &&
                 (!f.sendFails || f.arrived)
              then [body] else []
    ensures var list := Orders.ToSell(body, account, before.cart, catalogue);
            Orders.Sold(list, stock, f) && !f.replyLost && Orders.Unsendable(list.value, f) <==>
            ReachesTimeout(body, account, before.cart, catalogue, stock, f) &&
            (f.producerFails || f.startFails || f.sendFails)
  {
    SoldIffTaken(body, account, before.cart, catalogue, stock, f);
  }

  /** What the replied products cost in the requested quantities. */
  function Price(products: seq<Product>, cart: seq<CartRow>, account: int): real
  {
    if products == [] then 0.0
    else
      var last := products[|products| - 1];
      Price(products[..|products| - 1], cart, account) + last.price * (Requested(cart, account, last.id) as real)
  }

  lemma {:induction false} WorthIsPrice(products: seq<Product>, cart: seq<CartRow>, account: int)
    ensures Worth(products, OrderLines(products, AsLines(Checked(cart, account)))) == Price(products, cart, account)
  {
    if products != [] {
      var n, lines := |products| - 1, AsLines(Checked(cart, account));
      WorthIsPrice(products[..n], cart, account);
      assert OrderLines(products, lines)[..n] == OrderLines(products[..n], lines);
      RequestedIsLast(cart, account, products[n].id);
    }
  }

  /** A stored order is the last row, under the next id, and its amount is what the replied products cost. */
  lemma StoredOrderCosts(body: Orders.Body, account: int, catalogue: Orders.Catalogue, f: Orders.Faults,
                         before: Orders.Tables, stock: Stock, after: Orders.Tables, stock': Stock, amount: real,
                         v: Saga.Verdict)
    requires Orders.Executed(body, account, catalogue, f, before, stock, after, stock', amount, v)
    requires !Stored(body, before) && Stored(body, after)
    ensures catalogue(RequestedIds(before.cart, account)).Some?
    ensures var products := catalogue(RequestedIds(before.cart, account)).value;
            after.orders == before.orders + [body.item.(id := before.nextId, status := "unPay",
                                                        amount := Price(products, before.cart, account))]
  {
    SoldIffTaken(body, account, before.cart, catalogue, stock, f);
    StoredIff(body, account, catalogue, f, before, stock, after, stock', amount, v);
    var products := catalogue(RequestedIds(before.cart, account)).value;
    var rows := after.orderProducts[|before.orderProducts|..];
    RequestedIsLast(before.cart, account, 0);
    CostIsWorth(rows, before.nextId, products, OrderLines(products, AsLines(Checked(before.cart, account))));
    WorthIsPrice(products, before.cart, account);
  }
}
