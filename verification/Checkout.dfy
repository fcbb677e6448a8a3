/** What checkout makes of a cart: which rows it takes, which order lines and amount it builds from the
    catalogue's reply, and when those agree. OrderService runs it. */
module Checkout {
  import opened Quantities
  import ShopCart

  type CartRow = ShopCart.CartRow

  datatype Product = Product(id: int, name: string, image: string, price: real)

  datatype OrderProduct = OrderProduct(orderId: int, product: int, name: string, image: string, price: real, num: int)

  predicate Taken(row: CartRow, account: int) { row.account == account && row.checked }

  /** The rows an account has checked, in table order. */
  function Checked(cart: seq<CartRow>, account: int): seq<CartRow>
  {
    if cart == [] then []
    else
      var last := cart[|cart| - 1];
      Checked(cart[..|cart| - 1], account) + if Taken(last, account) then [last] else []
  }

  /** What checkout leaves in the table. */
  function Unchecked(cart: seq<CartRow>, account: int): seq<CartRow>
  {
    if cart == [] then []
    else
      var last := cart[|cart| - 1];
      Unchecked(cart[..|cart| - 1], account) + if Taken(last, account) then [] else [last]
  }

  function AsLines(rows: seq<CartRow>): (lines: seq<Line>)
    ensures |lines| == |rows|
    ensures forall i :: 0 <= i < |rows| ==> lines[i] == Line(rows[i].product, rows[i].num)
  {
    seq(|rows|, i requires 0 <= i < |rows| => Line(rows[i].product, rows[i].num))
  }

  function Ids(rows: seq<CartRow>): (ids: seq<int>)
    ensures |ids| == |rows|
    ensures forall i :: 0 <= i < |rows| ==> ids[i] == rows[i].product
  {
    seq(|rows|, i requires 0 <= i < |rows| => rows[i].product)
  }

  /** The map's quantity for a product, 0 when it has none. */
  function NumIn(productNum: map<int, int>, p: int): int
  {
    if p in productNum then productNum[p] else 0
  }

  ghost predicate KeepsLast(productNum: map<int, int>, cart: seq<Line>)
  {
    forall p :: NumIn(productNum, p) == LastNum(cart, p)
  }

  /** One line per product in the catalogue's reply, with the quantity of the product's last cart row, and 0 for
      a product the cart does not hold. */
  ghost function OrderLines(products: seq<Product>, cart: seq<Line>): (lines: seq<Line>)
    ensures |lines| == |products|
    ensures forall i :: 0 <= i < |lines| ==> lines[i] == Line(products[i].id, LastNum(cart, products[i].id))
  {
    seq(|products|, i requires 0 <= i < |products| => Line(products[i].id, LastNum(cart, products[i].id)))
  }

  /** The order's rows record exactly the products, prices and quantities of its lines. */
  ghost predicate Records(rows: seq<OrderProduct>, orderId: int, products: seq<Product>, lines: seq<Line>)
    requires |products| == |lines|
  {
    && |rows| == |lines|
    && forall i :: 0 <= i < |rows| ==>
         var p := products[i];
         rows[i] == OrderProduct(orderId, lines[i].product, p.name, p.image, p.price, lines[i].num)
  }

  function LinePrice(price: real, num: int): real { price * (num as real) }

  /** The price of the recorded rows. */
  function Cost(rows: seq<OrderProduct>): real
  {
    if rows == [] then 0.0
    else
      var last := rows[|rows| - 1];
      Cost(rows[..|rows| - 1]) + LinePrice(last.price, last.num)
  }

  /** What the products cost in these quantities. */
  function Worth(products: seq<Product>, lines: seq<Line>): real
    requires |products| == |lines|
  {
    if products == [] then 0.0
    else
      var n := |products| - 1;
      Worth(products[..n], lines[..n]) + products[n].price * (lines[n].num as real)
  }

  /** The same counted product by product: each price times the product's total in a list. */
  function WorthByTotals(products: seq<Product>, lines: seq<Line>): real
  {
    if products == [] then 0.0
    else
      var n := |products| - 1;
      WorthByTotals(products[..n], lines) + products[n].price * (Total(lines, products[n].id) as real)
  }

  /** The price of the recorded rows is the sum of price times quantity. */
  lemma {:induction false} CostIsWorth(rows: seq<OrderProduct>, orderId: int, products: seq<Product>, lines: seq<Line>)
    requires |products| == |lines| && Records(rows, orderId, products, lines)
    ensures Cost(rows) == Worth(products, lines)
  {
    if rows != [] {
      var n := |rows| - 1;
      CostIsWorth(rows[..n], orderId, products[..n], lines[..n]);
    }
  }

  lemma {:induction false} WorthIsByTotals(products: seq<Product>, lines: seq<Line>, totals: seq<Line>)
    requires |products| == |lines|
    requires forall i :: 0 <= i < |products| ==> Total(totals, products[i].id) == lines[i].num
    ensures Worth(products, lines) == WorthByTotals(products, totals)
  {
    if products != [] {
      var n := |products| - 1;
      WorthIsByTotals(products[..n], lines[..n], totals);
    }
  }

  /** For a complete reply an order costs, for each product, its price times its total in the order, and without
      repeated cart products its price times its total in the cart. */
  lemma CompleteOrdersCostTheirTotals(rows: seq<OrderProduct>, orderId: int, products: seq<Product>, cart: seq<Line>)
    requires Complete(products, cart) && Records(rows, orderId, products, OrderLines(products, cart))
    ensures Cost(rows) == WorthByTotals(products, OrderLines(products, cart))
    ensures DistinctProducts(cart) ==> Cost(rows) == WorthByTotals(products, cart)
  {
    var lines := OrderLines(products, cart);
    forall i | 0 <= i < |products| ensures Total(lines, products[i].id) == lines[i].num {
      OrderedNum(products, cart, products[i].id);
    }
    CostIsWorth(rows, orderId, products, lines);
    WorthIsByTotals(products, lines, lines);
    if DistinctProducts(cart) {
      forall i | 0 <= i < |products| ensures Total(cart, products[i].id) == lines[i].num {
        DistinctLastIsTotal(cart, products[i].id);
      }
      WorthIsByTotals(products, lines, cart);
    }
  }

  ghost predicate DistinctIds(products: seq<Product>)
  {
    forall i, j :: 0 <= i < j < |products| ==> products[i].id != products[j].id
  }

  /** The catalogue answered each requested product once and nothing else. */
  ghost predicate Complete(products: seq<Product>, cart: seq<Line>)
  {
    && DistinctIds(products)
    && (forall i :: 0 <= i < |products| ==> exists j :: 0 <= j < |cart| && cart[j].product == products[i].id)
    && (forall j :: 0 <= j < |cart| ==> exists i :: 0 <= i < |products| && products[i].id == cart[j].product)
  }

  /** Order and checked cart rows agree product by product. */
  ghost predicate Faithful(products: seq<Product>, cart: seq<Line>)
  {
    forall p :: Total(OrderLines(products, cart), p) == Total(cart, p)
  }

  /** How often the reply lists a product. */
  function Occurrences(products: seq<Product>, p: int): nat
  {
    if products == [] then 0
    else Occurrences(products[..|products| - 1], p) + if products[|products| - 1].id == p then 1 else 0
  }

  lemma {:induction false} OrderedTotal(products: seq<Product>, cart: seq<Line>, p: int)
    ensures Total(OrderLines(products, cart), p) == Occurrences(products, p) * LastNum(cart, p)
  {
    if products != [] {
      var n := |products| - 1;
      OrderedTotal(products[..n], cart, p);
      assert OrderLines(products, cart)[..n] == OrderLines(products[..n], cart);
    }
  }

  /** Whatever the catalogue replies, the order is for what the cart asks exactly when each cart product's last
      quantity, taken as often as the reply lists the product, is the product's total. */
  lemma FaithfulIffRepliedTotals(products: seq<Product>, cart: seq<Line>)
    ensures Faithful(products, cart) <==>
            forall i :: 0 <= i < |cart| ==>
              Occurrences(products, cart[i].product) * LastNum(cart, cart[i].product) == Total(cart, cart[i].product)
  {
    forall p ensures Total(OrderLines(products, cart), p) == Occurrences(products, p) * LastNum(cart, p) {
      OrderedTotal(products, cart, p);
    }
    if forall i :: 0 <= i < |cart| ==>
      Occurrences(products, cart[i].product) * LastNum(cart, cart[i].product) == Total(cart, cart[i].product)
    {
      forall p ensures Total(OrderLines(products, cart), p) == Total(cart, p) {
        if i :| 0 <= i < |cart| && cart[i].product == p {
        } else {
          AbsentLastNum(cart, p);
          TotalAbsent(cart, p);
        }
      }
    }
  }

  /** So a reply that lacks a product of the cart, such as one deleted since, makes an order that is not for what the
      cart asks; checkout clears the product's row all the same. */
  lemma MissingProductIsNotOrdered(products: seq<Product>, cart: seq<Line>, i: nat)
    requires Positive(cart) && i < |cart| && Occurrences(products, cart[i].product) == 0
    ensures Total(OrderLines(products, cart), cart[i].product) == 0 < Total(cart, cart[i].product)
    ensures !Faithful(products, cart)
  {
    OrderedTotal(products, cart, cart[i].product);
    StrictlyRises(cart, i);
  }

  /** Given a complete catalogue reply, the order (and so the sale) is for what the cart asks exactly when no
      product has two checked rows. */
  lemma FaithfulIffOneRowPerProduct(products: seq<Product>, cart: seq<Line>)
    requires Positive(cart) && Complete(products, cart)
    ensures Faithful(products, cart) <==> DistinctProducts(cart)
  {
    forall p ensures Total(OrderLines(products, cart), p) == LastNum(cart, p) {
      OrderedNum(products, cart, p);
    }
    LastIsTotalIffDistinct(cart);
    if DistinctProducts(cart) {
      assert forall p :: LastNum(cart, p) == Total(cart, p);
    } else {
      var p :| LastNum(cart, p) != Total(cart, p);
      assert Total(OrderLines(products, cart), p) != Total(cart, p);
    }
  }

  lemma OrderedNum(products: seq<Product>, cart: seq<Line>, p: int)
    requires Complete(products, cart)
    ensures Total(OrderLines(products, cart), p) == LastNum(cart, p)
  {
    if i :| 0 <= i < |products| && products[i].id == p {
      ListedNum(products, cart, i);
    } else {
      TotalAbsent(OrderLines(products, cart), p);
      AbsentLastNum(cart, p);
    }
  }

  lemma ListedNum(products: seq<Product>, cart: seq<Line>, i: nat)
    requires DistinctIds(products) && i < |products|
    ensures Total(OrderLines(products, cart), products[i].id) == LastNum(cart, products[i].id)
  {
    DistinctLastIsTotal(OrderLines(products, cart), products[i].id);
    ListedLastNum(OrderLines(products, cart), products[i].id, i);
  }

  lemma {:induction false} ListedLastNum(lines: seq<Line>, p: int, i: nat)
    requires DistinctProducts(lines) && i < |lines| && lines[i].product == p
    ensures LastNum(lines, p) == lines[i].num
  {
    if i < |lines| - 1 {
      ListedLastNum(lines[..|lines| - 1], p, i);
    }
  }

  /** Every cart row is either taken or left, with its multiplicity. */
  lemma {:induction false} TakenOrLeft(cart: seq<CartRow>, account: int)
    ensures multiset(cart) == multiset(Checked(cart, account)) + multiset(Unchecked(cart, account))
  {
    if cart != [] {
      TakenOrLeft(cart[..|cart| - 1], account);
      LastApart(cart);
      if Taken(cart[|cart| - 1], account) {
        LastApart(Checked(cart, account));
      } else {
        LastApart(Unchecked(cart, account));
      }
    }
  }

  /** Only the account's checked rows are taken, and all of them. */
  lemma {:induction false} OnlyCheckedAreTaken(cart: seq<CartRow>, account: int)
    ensures forall row :: row in Checked(cart, account) ==> Taken(row, account)
    ensures forall row :: row in Unchecked(cart, account) ==> !Taken(row, account)
  {
    if cart != [] {
      OnlyCheckedAreTaken(cart[..|cart| - 1], account);
    }
  }

  // ----- carts that come from the cart table -----

  /** The query's rows: every row of the table once, by increasing id. */
  ghost predicate ListsTable(cart: seq<CartRow>, ids: seq<int>, t: ShopCart.Table)
  {
    && |ids| == |cart|
    && (forall i, j :: 0 <= i < j < |ids| ==> ids[i] < ids[j])
    && (forall i :: 0 <= i < |ids| ==> ids[i] in t.rows && cart[i] == t.rows[ids[i]])
    && (forall id :: id in t.rows ==> id in ids)
  }

  ghost predicate OneRowPerProduct(cart: seq<CartRow>)
  {
    forall i, j :: 0 <= i < j < |cart| ==> !ShopCart.Has(cart[j], cart[i].account, cart[i].product)
  }

  lemma {:induction false} TakenAreRows(cart: seq<CartRow>, account: int)
    ensures forall row :: row in Checked(cart, account) ==> row in cart
  {
    if cart != [] {
      TakenAreRows(cart[..|cart| - 1], account);
    }
  }

  lemma {:induction false} OneCheckedRowPerProduct(cart: seq<CartRow>, account: int)
    requires OneRowPerProduct(cart)
    ensures DistinctProducts(AsLines(Checked(cart, account)))
  {
    if cart != [] {
      var init, last := cart[..|cart| - 1], cart[|cart| - 1];
      var rows := Checked(init, account);
      OneCheckedRowPerProduct(init, account);
      TakenAreRows(init, account);
      OnlyCheckedAreTaken(init, account);
      if Taken(last, account) {
        assert Checked(cart, account) == rows + [last];
        forall i | 0 <= i < |rows| ensures rows[i].product != last.product {
          assert rows[i] in rows;
          var k :| 0 <= k < |init| && init[k] == rows[i];
          assert !ShopCart.Has(last, cart[k].account, cart[k].product);
        }
        assert forall i :: 0 <= i < |rows| ==> AsLines(rows + [last])[i] == AsLines(rows)[i];
      }
    }
  }

  /** A table with one row per account and product: the rows checkout takes have distinct products, so that given a
      complete catalogue reply the order is for exactly what they ask. */
  lemma ValidTablesGiveFaithfulOrders(t: ShopCart.Table, cart: seq<CartRow>, ids: seq<int>, account: int,
                                      products: seq<Product>)
    requires ShopCart.Valid(t) && ListsTable(cart, ids, t)
    ensures DistinctProducts(AsLines(Checked(cart, account)))
    ensures Complete(products, AsLines(Checked(cart, account))) ==> Faithful(products, AsLines(Checked(cart, account)))
  {
    var lines := AsLines(Checked(cart, account));
    forall i, j | 0 <= i < j < |cart| ensures !ShopCart.Has(cart[j], cart[i].account, cart[i].product) {
      assert ids[i] < ids[j];
    }
    OneCheckedRowPerProduct(cart, account);
    if Complete(products, lines) {
      forall p ensures Total(OrderLines(products, lines), p) == Total(lines, p) {
        OrderedNum(products, lines, p);
        DistinctLastIsTotal(lines, p);
      }
    }
  }

  /** Whatever calls the cart service has served one after another, and whatever ids they carried, its table is such a
      one. */
  lemma ServedCartsGiveFaithfulOrders(ops: seq<ShopCart.Op>, cart: seq<CartRow>, ids: seq<int>, account: int,
                                      products: seq<Product>)
    requires ListsTable(cart, ids, ShopCart.Run(ShopCart.Table(map[], 1), ops))
    ensures DistinctProducts(AsLines(Checked(cart, account)))
    ensures Complete(products, AsLines(Checked(cart, account))) ==> Faithful(products, AsLines(Checked(cart, account)))
  {
    ShopCart.RunsKeepOneRowPerProduct(ShopCart.Table(map[], 1), ops);
    ValidTablesGiveFaithfulOrders(ShopCart.Run(ShopCart.Table(map[], 1), ops), cart, ids, account, products);
  }

  /** The ids of the rows that checkout leaves. */
  function LeftIds(cart: seq<CartRow>, ids: seq<int>, account: int): (left: seq<int>)
    requires |ids| == |cart|
    ensures |left| == |Unchecked(cart, account)|
  {
    if cart == [] then []
    else
      var n := |cart| - 1;
      LeftIds(cart[..n], ids[..n], account) + if Taken(cart[n], account) then [] else [ids[n]]
  }

  /** The left row i is row k of the cart. */
  ghost predicate LeftFrom(cart: seq<CartRow>, ids: seq<int>, account: int, i: nat, k: nat)
    requires |ids| == |cart|
  {
    && i < |LeftIds(cart, ids, account)| && i < |Unchecked(cart, account)| && k < |cart|
    && LeftIds(cart, ids, account)[i] == ids[k] && Unchecked(cart, account)[i] == cart[k]
    && !Taken(cart[k], account)
  }

  lemma {:induction false} LeftAreRows(cart: seq<CartRow>, ids: seq<int>, account: int, i: nat) returns (k: nat)
    requires |ids| == |cart| && i < |LeftIds(cart, ids, account)|
    ensures LeftFrom(cart, ids, account, i, k)
  {
    var n := |cart| - 1;
    if i < |LeftIds(cart[..n], ids[..n], account)| {
      k := LeftAreRows(cart[..n], ids[..n], account, i);
    } else {
      k := n;
    }
  }

  lemma {:induction false} LeftCovers(cart: seq<CartRow>, ids: seq<int>, account: int, k: nat)
    requires |ids| == |cart| && k < |cart| && !Taken(cart[k], account)
    ensures ids[k] in LeftIds(cart, ids, account)
  {
    if k < |cart| - 1 {
      LeftCovers(cart[..|cart| - 1], ids[..|cart| - 1], account, k);
    }
  }

  lemma {:induction false} LeftRises(cart: seq<CartRow>, ids: seq<int>, account: int, i: nat, j: nat)
    requires |ids| == |cart| && forall k, l :: 0 <= k < l < |ids| ==> ids[k] < ids[l]
    requires i < j < |LeftIds(cart, ids, account)|
    ensures LeftIds(cart, ids, account)[i] < LeftIds(cart, ids, account)[j]
  {
    var n := |cart| - 1;
    if j < |LeftIds(cart[..n], ids[..n], account)| {
      LeftRises(cart[..n], ids[..n], account, i, j);
    } else {
      var k := LeftAreRows(cart[..n], ids[..n], account, i);
      assert ids[..n][k] == ids[k];
    }
  }

  /** Clearing the listed rows is the cart table's checkout: what is left lists what is left there. */
  lemma ClearingIsCheckout(cart: seq<CartRow>, ids: seq<int>, t: ShopCart.Table, account: int)
    requires ListsTable(cart, ids, t)
    ensures ListsTable(Unchecked(cart, account), LeftIds(cart, ids, account),
                       ShopCart.Effect(t, ShopCart.Checkout(account)))
  {
    var after, left := ShopCart.Effect(t, ShopCart.Checkout(account)), LeftIds(cart, ids, account);
    forall i, j | 0 <= i < j < |left| ensures left[i] < left[j] {
      LeftRises(cart, ids, account, i, j);
    }
    forall i | 0 <= i < |left| ensures left[i] in after.rows && Unchecked(cart, account)[i] == after.rows[left[i]] {
      var k := LeftAreRows(cart, ids, account, i);
    }
    forall id | id in after.rows ensures id in left {
      var k :| 0 <= k < |ids| && ids[k] == id;
      LeftCovers(cart, ids, account, k);
    }
  }
}
