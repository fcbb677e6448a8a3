/** The order service: CreateOrder and its transaction listener, status changes, and the timeout consumer,
    one call at a time over one database. (Saga is about calls that interleave.) */
module OrderService {
  import opened Common
  import opened Quantities
  import opened Checkout
  import Saga
  import StockService

  datatype Code = OK | Internal

  datatype OrderItem = OrderItem(id: int, account: int, no: string, status: string, amount: real, shipping: Shipping)

  datatype Shipping = Shipping(addr: string, receiver: string, mobile: string, postCode: string)

  /** A message body: the order item as CreateOrder encoded it, or bytes that do not decode. */
  datatype Body = Encoded(item: OrderItem) | Undecodable

  type Catalogue = seq<int> -> Option<seq<Product>>

  /** Which of the calls to other systems fail. `replyLost`: Sell ran, but its caller saw an error. `arrived`: the
      timeout message reached the broker although sending it reported an error. */
  datatype Faults = Faults(
    requestLost: bool, replyLost: bool,
    saveFails: bool, linesFail: bool, clearFails: bool,
    producerFails: bool, startFails: bool, sendFails: bool, arrived: bool)

  /** The order service's tables, and the "timeout" and "give back" messages that it has sent and that are queued. */
  datatype Tables = Tables(
    cart: seq<CartRow>, orders: seq<OrderItem>, orderProducts: seq<OrderProduct>, nextId: int,
    timeouts: seq<Body>, backs: seq<Body>)

  class Database {
    var cart: seq<CartRow>
    var orders: seq<OrderItem>
    var orderProducts: seq<OrderProduct>
    var nextId: int
    var timeouts: seq<Body>
    var backs: seq<Body>

    constructor ()
      ensures Now() == Tables([], [], [], 1, [], [])
    {
      cart, orders, orderProducts, nextId, timeouts, backs := [], [], [], 1, [], [];
    }

    function Now(): Tables
      reads this
    {
      Tables(cart, orders, orderProducts, nextId, timeouts, backs)
    }
  }

  /** Position of the first order with this number, or the table's length. */
  function Find(orders: seq<OrderItem>, no: string): (k: nat)
    ensures k <= |orders|
    ensures k < |orders| ==> orders[k].no == no
    ensures forall j :: 0 <= j < k ==> orders[j].no != no
  {
    if orders == [] then 0
    else if orders[0].no == no then 0
    else 1 + Find(orders[1..], no)
  }

  function StatusOf(orders: seq<OrderItem>, no: string): Option<string>
  {
    var k := Find(orders, no);
    if k < |orders| then Some(orders[k].status) else None
  }

  // ----- the transaction listener -----

  /** The list ExecuteLocalTransaction sells, if it gets as far as calling Sell. */
  ghost function ToSell(body: Body, account: int, cart: seq<CartRow>, catalogue: Catalogue): Option<seq<Line>>
  {
    var rows := Checked(cart, account);
    if body.Undecodable? || rows == [] || catalogue(Ids(rows)).None? then None
    else Some(OrderLines(catalogue(Ids(rows)).value, AsLines(rows)))
  }

  /** Stock is taken: the call got through and the stock can serve it. */
  ghost predicate Sold(list: Option<seq<Line>>, stock: Stock, f: Faults)
  {
    list.Some? && !f.requestLost && Sellable(stock, list.value)
  }

  /** Everything after a successful sale goes through. */
  ghost predicate Written(list: seq<Line>, f: Faults)
  {
    list != [] && !f.saveFails && !f.linesFail && !f.clearFails && !f.producerFails && !f.startFails && !f.sendFails
  }

  /** The tables were written, but the timeout message could not be sent. */
  ghost predicate Unsendable(list: seq<Line>, f: Faults)
  {
    && list != [] && !f.saveFails && !f.linesFail && !f.clearFails
    && (f.producerFails || f.startFails || f.sendFails)
  }

  ghost predicate OrderAdded(before: seq<OrderItem>, after: seq<OrderItem>, item: OrderItem, id: int, amount: real)
  {
    after == before + [item.(id := id, status := Saga.UNPAID, amount := amount)]
  }

  /** The new rows record the sold list line by line, and cost what the order says. */
  ghost predicate RowsAdded(before: seq<OrderProduct>, after: seq<OrderProduct>, id: int, amount: real,
                            products: seq<Product>, list: seq<Line>)
  {
    && before <= after && |products| == |list|
    && Records(after[|before|..], id, products, list)
    && amount == Cost(after[|before|..])
  }

  /** The timeout message, if it reached the broker. */
  ghost function Queued(body: Body, list: seq<Line>, f: Faults): seq<Body>
  {
    if Written(list, f) || (Unsendable(list, f) && !f.producerFails && !f.startFails && f.arrived) then [body] else []
  }

  /** The order, its rows and the cleared cart are there, and nothing else in the tables has changed. */
  ghost predicate Created(item: OrderItem, account: int, products: seq<Product>, list: seq<Line>, amount: real,
                          before: Tables, after: Tables)
  {
    && after == before.(cart := Unchecked(before.cart, account), nextId := before.nextId + 1, orders := after.orders,
                        orderProducts := after.orderProducts, timeouts := after.timeouts)
    && OrderAdded(before.orders, after.orders, item, before.nextId, amount)
    && RowsAdded(before.orderProducts, after.orderProducts, before.nextId, amount, products, list)
  }

  /** What one ExecuteLocalTransaction does. It takes the stock exactly when Sold. It creates the order exactly when the
      rest is Written too, and otherwise leaves every table as it was. It asks for the stock to be given back exactly
      when it was taken for an order that is not there, unless Sell's reply was lost. */
  ghost predicate Executed(body: Body, account: int, catalogue: Catalogue, f: Faults,
                           before: Tables, stock: Stock, after: Tables, stock': Stock, amount: real, v: Saga.Verdict)
  {
    var list := ToSell(body, account, before.cart, catalogue);
    var sold := Sold(list, stock, f);
    var created := sold && !f.replyLost && Written(list.value, f);
    && stock' == (if sold then Subtract(stock, list.value) else stock)
    && v == (if sold && !f.replyLost && !created then Saga.CommitMessage else Saga.RollbackMessage)
    && after.timeouts == before.timeouts + (if sold && !f.replyLost then Queued(body, list.value, f) else [])
    && (!created ==> after == before.(timeouts := after.timeouts))
    && (created ==> Created(body.item, account, catalogue(Ids(Checked(before.cart, account))).value, list.value, amount,
                            before, after))
  }

  /** The check-back's answer depends on the stored order alone. */
  function CheckAnswer(body: Body, t: Tables): Saga.Verdict
  {
    Saga.CheckVerdict(body.Encoded?, if body.Encoded? then StatusOf(t.orders, body.item.no) else None)
  }

  class OrderListener {
    var id: int
    var orderAmount: real
    var accountId: int
    var status: Code

    constructor (accountId: int)
      ensures this.accountId == accountId && id == 0 && orderAmount == 0.0 && status == OK
    {
      this.accountId, id, orderAmount, status := accountId, 0, 0.0, OK;
    }

    method ExecuteLocalTransaction(body: Body, db: Database, stock: StockService.StockServer, catalogue: Catalogue,
                                   f: Faults)
      returns (v: Saga.Verdict)
      requires status == OK && id == 0
      modifies this, db, stock
      ensures accountId == old(accountId)
      ensures id == 0 && old(orderAmount) == 0.0 && old(db.nextId) > 0 ==> orderAmount == 0.0
      ensures Executed(body, accountId, catalogue, f, old(db.Now()), old(StockService.Nums(stock.rows)), db.Now(),
                       StockService.Nums(stock.rows), orderAmount, v)
      ensures var list := ToSell(body, accountId, old(db.cart), catalogue);
              var sold := Sold(list, old(StockService.Nums(stock.rows)), f) && !f.replyLost;
              && (status == Internal <==> sold && Unsendable(list.value, f))
              && id == (if sold && Written(list.value, f) then old(db.nextId) else 0)
    {
      if body.Undecodable? {
        return Saga.RollbackMessage;
      }
      var cartList := Checked(db.cart, accountId);
      if |cartList| < 1 {
        orderAmount := 0.0;
        return Saga.RollbackMessage;
      }
      var productIds, productNum := CollectCart(cartList);
      var reply := catalogue(productIds);
      if reply.None? {
        orderAmount := 0.0;
        return Saga.RollbackMessage;
      }
      var amount, orderProductList, stockItemList := Assemble(reply.value, productNum, AsLines(cartList));
      if f.requestLost {
        orderAmount := 0.0;
        return Saga.RollbackMessage;
      }
      var sale := stock.Sell(stockItemList);
      if sale.Err? || f.replyLost {
        orderAmount := 0.0;
        return Saga.RollbackMessage;
      }
      v := WriteOrder(body, amount, orderProductList, db, f, reply.value, stockItemList);
    }

    /** ExecuteLocalTransaction after the sale: the database transaction and the timeout message. */
    method WriteOrder(body: Body, amount: real, orderProductList: seq<OrderProduct>, db: Database, f: Faults,
                      ghost products: seq<Product>, ghost list: seq<Line>)
      returns (v: Saga.Verdict)
      requires body.Encoded? && status == OK && id == 0
      requires |products| == |list| && Records(orderProductList, 0, products, list) && amount == Cost(orderProductList)
      modifies this, db
      ensures accountId == old(accountId)
      ensures v == if Written(list, f) then Saga.RollbackMessage else Saga.CommitMessage
      ensures status == Internal <==> Unsendable(list, f)
      ensures db.timeouts == old(db.timeouts) + Queued(body, list, f)
      ensures !Written(list, f) && old(orderAmount) == 0.0 ==> orderAmount == 0.0
      ensures !Written(list, f) ==> id == 0 && db.Now() == old(db.Now()).(timeouts := db.timeouts)
      ensures Written(list, f) ==>
                id == old(db.nextId) &&
                Created(body.item, accountId, products, list, orderAmount, old(db.Now()), db.Now())
    {
      if f.saveFails {
        orderAmount := 0.0;
        return Saga.CommitMessage;
      }
      var item := body.item.(id := db.nextId, status := Saga.UNPAID, amount := amount);
      var withIds := SetOrderId(orderProductList, item.id);
      if f.linesFail || withIds == [] {
        orderAmount := 0.0;
        return Saga.CommitMessage;
      }
      if f.clearFails {
        orderAmount := 0.0;
        return Saga.CommitMessage;
      }
      v := SendTimeout(body, db, f);
      if v.CommitMessage? {
        return;
      }
      db.orders := db.orders + [item];
      db.orderProducts := db.orderProducts + withIds;
      db.cart := Unchecked(db.cart, accountId);
      db.nextId := db.nextId + 1;
      id, orderAmount := item.id, item.amount;
    }

    /** Queues the timeout message, unless that fails. */
    method SendTimeout(body: Body, db: Database, f: Faults) returns (v: Saga.Verdict)
      requires status == OK
      modifies this`status, db`timeouts
      ensures var sent := !f.producerFails && !f.startFails && !f.sendFails;
              && v == (if sent then Saga.RollbackMessage else Saga.CommitMessage)
              && status == (if sent then OK else Internal)
              && db.timeouts == old(db.timeouts) +
                   if sent || (!f.producerFails && !f.startFails && f.arrived) then [body] else []
    {
      if f.producerFails || f.startFails {
        status := Internal;
        return Saga.CommitMessage;
      }
      if f.sendFails {
        db.timeouts := db.timeouts + if f.arrived then [body] else [];
        status := Internal;
        return Saga.CommitMessage;
      }
      db.timeouts := db.timeouts + [body];
      status := OK;
      return Saga.RollbackMessage;
    }

    /** Answers from the order table alone. */
    method CheckLocalTransaction(body: Body, db: Database) returns (v: Saga.Verdict)
      ensures v == CheckAnswer(body, db.Now())
      ensures body.Undecodable? <==> v == Saga.Unknown
      ensures v == Saga.RollbackMessage <==>
              body.Encoded? && exists k :: 0 <= k < |db.orders| && db.orders[k].no == body.item.no
    {
      if body.Undecodable? {
        return Saga.Unknown;
      }
      var k := Find(db.orders, body.item.no);
      return if k < |db.orders| then Saga.RollbackMessage else Saga.CommitMessage;
    }
  }

  /** The first loop: the product ids in cart order, and a map that keeps the last quantity for each. */
  method CollectCart(cartList: seq<CartRow>) returns (productIds: seq<int>, productNum: map<int, int>)
    ensures productIds == Ids(cartList)
    ensures KeepsLast(productNum, AsLines(cartList))
  {
    productIds, productNum := [], map[];
    ghost var lines := AsLines(cartList);
    for i := 0 to |cartList|
      invariant productIds == Ids(cartList)[..i]
      invariant KeepsLast(productNum, lines[..i])
    {
      assert lines[..i + 1][..i] == lines[..i];
      productIds := productIds + [cartList[i].product];
      productNum := productNum[cartList[i].product := cartList[i].num];
    }
    assert lines[..|cartList|] == lines;
  }

  /** The second loop: order rows, sale list and amount from the catalogue's reply. */
  method Assemble(products: seq<Product>, productNum: map<int, int>, ghost cart: seq<Line>)
    returns (amount: real, rows: seq<OrderProduct>, list: seq<Line>)
    requires KeepsLast(productNum, cart)
    ensures list == OrderLines(products, cart)
    ensures Records(rows, 0, products, list)
    ensures amount == Cost(rows) == Worth(products, list)
  {
    amount, rows, list := 0.0, [], [];
    for i := 0 to |products|
      invariant list == OrderLines(products[..i], cart)
      invariant Records(rows, 0, products[..i], list)
      invariant amount == Cost(rows)
    {
      var item := products[i];
      var num := NumIn(productNum, item.id);
      var row := OrderProduct(0, item.id, item.name, item.image, item.price, num);
      amount := amount + LinePrice(item.price, num);
      rows := rows + [row];
      list := list + [Line(item.id, num)];
    }
    assert products[..|products|] == products;
    CostIsWorth(rows, 0, products, list);
  }

  /** The third loop: the new order's id goes into each row. */
  method SetOrderId(rows: seq<OrderProduct>, id: int) returns (out: seq<OrderProduct>)
    ensures |out| == |rows| && forall i :: 0 <= i < |rows| ==> out[i] == rows[i].(orderId := id)
    ensures Cost(out) == Cost(rows)
  {
    out := [];
    for i := 0 to |rows|
      invariant |out| == i && forall j :: 0 <= j < i ==> out[j] == rows[j].(orderId := id)
      invariant Cost(out) == Cost(rows[..i])
    {
      assert rows[..i + 1][..i] == rows[..i];
      var row := rows[i].(orderId := id);
      assert (out + [row])[..|out|] == out;
      out := out + [row];
    }
    assert rows[..|rows|] == rows;
  }

  // ----- the service's calls and the timeout consumer -----

  /** Which of CreateOrder's own steps fail before the half message is in the broker. */
  datatype SetupFaults = SetupFaults(producerFails: bool, startFails: bool, encodingFails: bool, halfFails: bool)

  datatype CreateReply = Reply(id: int, no: string, amount: real) | Failed

  class CartOrderServer {
    const db: Database
    const stock: StockService.StockServer

    constructor (db: Database, stock: StockService.StockServer)
      ensures this.db == db && this.stock == stock
    {
      this.db, this.stock := db, stock;
    }

    /** A reply with a non-zero id means exactly that the order was created. A reply as such does not: apart from set-up
        failures, only an order that could not send its timeout message is reported as failed, and every other
        refusal is answered with id 0. `v` is the verdict the broker is told, if a half message was sent. */
    method CreateOrder(accountId: int, no: string, shipping: Shipping, catalogue: Catalogue,
                       setup: SetupFaults, f: Faults)
      returns (r: CreateReply, v: Option<Saga.Verdict>)
      requires db.nextId > 0
      modifies db, stock
      ensures v.Some? <==> !setup.producerFails && !setup.startFails && !setup.halfFails
      ensures v.None? ==>
                && r == Failed && db.Now() == old(db.Now())
                && StockService.Nums(stock.rows) == old(StockService.Nums(stock.rows))
      ensures var body := if setup.encodingFails then Undecodable
                          else Encoded(OrderItem(0, accountId, no, "", 0.0, shipping));
              var list := ToSell(body, accountId, old(db.cart), catalogue);
              var sold := Sold(list, old(StockService.Nums(stock.rows)), f) && !f.replyLost;
              v.Some? ==>
                && Executed(body, accountId, catalogue, f, old(db.Now()), old(StockService.Nums(stock.rows)), db.Now(),
                            StockService.Nums(stock.rows), if r.Reply? then r.amount else 0.0, v.value)
                && (r == Failed <==> sold && Unsendable(list.value, f))
                && (r.Reply? && r.id != 0 <==> sold && Written(list.value, f))
                && (r.Reply? && r.id == 0 ==> r.amount == 0.0)
                && (r.Reply? ==> r == Reply(if sold && Written(list.value, f) then old(db.nextId) else 0, no, r.amount))
    {
      if setup.producerFails || setup.startFails {
        return Failed, None;
      }
      var listener := new OrderListener(accountId);
      var body := if setup.encodingFails then Undecodable
                  else Encoded(OrderItem(0, accountId, no, "", 0.0, shipping));
      if setup.halfFails {
        return Failed, None;
      }
      var verdict := listener.ExecuteLocalTransaction(body, db, stock, catalogue, f);
      v := Some(verdict);
      r := if listener.status != OK then Failed else Reply(listener.id, no, listener.orderAmount);
    }

    /** Sets any status on the matching order, whatever its status was. */
    method ChangeOrderStatus(id: int, no: string, status: string) returns (found: bool)
      modifies db
      ensures StatusChanged(id, no, status, old(db.Now()), db.Now(), found)
      ensures forall k :: 0 <= k < |db.orders| ==>
                if old(db.orders)[k].id == id && old(db.orders)[k].no == no
                then found && db.orders[k].status == status else db.orders[k] == old(db.orders)[k]
    {
      found := exists k :: 0 <= k < |db.orders| && Matches(db.orders[k], id, no);
      var orders := db.orders;
      db.orders := seq(|orders|, k requires 0 <= k < |orders| =>
        if Matches(orders[k], id, no) then orders[k].(status := status) else orders[k]);
    }

    /** One message of the timeout consumer. The order is looked up again, and unless it is paid it is closed once its
        "give back" message is sent. */
    method HandleTimeout(order: OrderItem, sendFails: bool) returns (missing: bool, failed: bool)
      modifies db
      ensures TimedOut(order, sendFails, old(db.Now()), db.Now(), missing, failed)
    {
      missing, failed := false, false;
      var k := Find(db.orders, order.no);
      if k == |db.orders| {
        missing := true;
        return;
      }
      if db.orders[k].status != Saga.PAID {
        var tx := db.orders[k := db.orders[k].(status := Saga.CLOSED)];
        if sendFails {
          failed := true;
          return;
        }
        db.backs := db.backs + [Encoded(order)];
        db.orders := tx;
      }
    }

    /** The timeout consumer's batch. It is handled up to the first message whose order is missing or whose send fails:
        the former ends it as a success, the latter for redelivery. */
    method HandleTimeouts(batch: seq<OrderItem>, sendFails: seq<bool>) returns (r: ConsumeResult, ghost n: nat)
      requires |sendFails| == |batch|
      modifies db
      ensures FirstStop(old(db.orders), batch, sendFails, n)
      ensures r == Answer(old(db.orders), batch, n)
      ensures db.Now() == AfterMessages(old(db.Now()), batch[..n])
    {
      ghost var start := db.Now();
      NothingClosed(db.orders);
      for i := 0 to |batch|
        invariant NoneStops(start.orders, batch[..i], sendFails[..i])
        invariant db.Now() == AfterMessages(start, batch[..i])
      {
        ghost var mid := db.Now();
        var missing, failed := HandleTimeout(batch[i], sendFails[i]);
        OneMoreTimedOut(start, batch, i, sendFails[i], mid, db.Now(), missing, failed);
        if missing {
          return ConsumeSuccess, i;
        }
        if failed {
          return ConsumeRetryLater, i;
        }
        OneMoreGoesOn(start.orders, batch, i, sendFails);
      }
      assert batch[..|batch|] == batch && sendFails[..|batch|] == sendFails;
      return ConsumeSuccess, |batch|;
    }
  }

  /** What one status change does. */
  ghost predicate StatusChanged(id: int, no: string, status: string, before: Tables, after: Tables, found: bool)
  {
    && (found <==> exists k :: 0 <= k < |before.orders| && Matches(before.orders[k], id, no))
    && after == before.(orders := after.orders)
    && |after.orders| == |before.orders|
    && forall k :: 0 <= k < |after.orders| ==>
         after.orders[k] == if Matches(before.orders[k], id, no) then before.orders[k].(status := status)
                            else before.orders[k]
  }

  /** What one timeout message does. `missing` tells that there is no such order, and `failed` that sending failed, so
      that nothing was committed. */
  ghost predicate TimedOut(order: OrderItem, sendFails: bool, before: Tables, after: Tables,
                           missing: bool, failed: bool)
  {
    var k, status := Find(before.orders, order.no), StatusOf(before.orders, order.no);
    && (missing <==> status.None?)
    && (failed <==> Saga.MustClose(status) && sendFails)
    && after == if !Saga.MustClose(status) || sendFails then before
                else before.(orders := before.orders[k := before.orders[k].(status := Saga.CLOSED)],
                             backs := before.backs + [Encoded(order)])
  }

  // ----- batches of timeout messages -----

  /** The message ends its batch. Closing an order changes neither whether it is missing nor whether it must be
      closed, so this can be told from the orders as they were before the batch. */
  predicate Stops(orders: seq<OrderItem>, message: OrderItem, sendFails: bool)
  {
    StatusOf(orders, message.no).None? || (Saga.MustClose(StatusOf(orders, message.no)) && sendFails)
  }

  ghost predicate NoneStops(orders: seq<OrderItem>, batch: seq<OrderItem>, sendFails: seq<bool>)
    requires |sendFails| == |batch|
  {
    forall j :: 0 <= j < |batch| ==> !Stops(orders, batch[j], sendFails[j])
  }

  ghost predicate FirstStop(orders: seq<OrderItem>, batch: seq<OrderItem>, sendFails: seq<bool>, n: nat)
    requires |sendFails| == |batch|
  {
    && n <= |batch| && NoneStops(orders, batch[..n], sendFails[..n])
    && (n < |batch| ==> Stops(orders, batch[n], sendFails[n]))
  }

  function Answer(orders: seq<OrderItem>, batch: seq<OrderItem>, n: nat): ConsumeResult
  {
    if n < |batch| && StatusOf(orders, batch[n].no).Some? then ConsumeRetryLater else ConsumeSuccess
  }

  predicate Mentions(batch: seq<OrderItem>, no: string)
  {
    exists j :: 0 <= j < |batch| && batch[j].no == no
  }

  /** The first orders with the batch's numbers are closed, unless they are paid. */
  ghost function ClosedBy(orders: seq<OrderItem>, batch: seq<OrderItem>): (after: seq<OrderItem>)
    ensures |after| == |orders|
    ensures forall k :: 0 <= k < |orders| ==>
              after[k] == if Mentions(batch, orders[k].no) && Find(orders, orders[k].no) == k
                             && orders[k].status != Saga.PAID
                          then orders[k].(status := Saga.CLOSED) else orders[k]
  {
    seq(|orders|, k requires 0 <= k < |orders| =>
      if Mentions(batch, orders[k].no) && Find(orders, orders[k].no) == k && orders[k].status != Saga.PAID
      then orders[k].(status := Saga.CLOSED) else orders[k])
  }

  /** One "give back" message for each message of the batch whose order is there and not paid, in their order. */
  function SentBack(orders: seq<OrderItem>, batch: seq<OrderItem>): seq<Body>
  {
    if batch == [] then []
    else
      var last := batch[|batch| - 1];
      SentBack(orders, batch[..|batch| - 1]) + if Saga.MustClose(StatusOf(orders, last.no)) then [Encoded(last)] else []
  }

  /** What the messages do, one after another, none of them ending the batch. */
  ghost function AfterMessages(start: Tables, batch: seq<OrderItem>): Tables
  {
    start.(orders := ClosedBy(start.orders, batch), backs := start.backs + SentBack(start.orders, batch))
  }

  lemma NothingClosed(orders: seq<OrderItem>)
    ensures ClosedBy(orders, []) == orders
  {
  }

  lemma OneMoreSentBack(orders: seq<OrderItem>, batch: seq<OrderItem>, i: nat)
    requires i < |batch|
    ensures SentBack(orders, batch[..i + 1]) ==
            SentBack(orders, batch[..i]) +
            if Saga.MustClose(StatusOf(orders, batch[i].no)) then [Encoded(batch[i])] else []
  {
    assert batch[..i + 1][..i] == batch[..i];
  }

  /** What a message finds and leaves after the messages before it. */
  lemma OneMoreMessage(orders: seq<OrderItem>, batch: seq<OrderItem>, i: nat)
    requires i < |batch|
    ensures var mid, no := ClosedBy(orders, batch[..i]), batch[i].no;
            var k := Find(mid, no);
            && (StatusOf(mid, no).None? <==> StatusOf(orders, no).None?)
            && (Saga.MustClose(StatusOf(mid, no)) <==> Saga.MustClose(StatusOf(orders, no)))
            && ClosedBy(orders, batch[..i + 1]) ==
                 if Saga.MustClose(StatusOf(mid, no)) then mid[k := mid[k].(status := Saga.CLOSED)] else mid
  {
    FindByNumber(orders, ClosedBy(orders, batch[..i]), batch[i].no);
    MentionsOneMore(batch, i);
  }

  lemma OneMoreTimedOut(start: Tables, batch: seq<OrderItem>, i: nat, sendFails: bool, mid: Tables, after: Tables,
                        missing: bool, failed: bool)
    requires i < |batch| && mid == AfterMessages(start, batch[..i])
    requires TimedOut(batch[i], sendFails, mid, after, missing, failed)
    ensures missing || failed <==> Stops(start.orders, batch[i], sendFails)
    ensures missing <==> StatusOf(start.orders, batch[i].no).None?
    ensures after == if missing || failed then mid else AfterMessages(start, batch[..i + 1])
  {
    OneMoreMessage(start.orders, batch, i);
    OneMoreSentBack(start.orders, batch, i);
    var some := AfterMessages(start, batch[..i + 1]);
    var sent := if Saga.MustClose(StatusOf(mid.orders, batch[i].no)) then [Encoded(batch[i])] else [];
    assert some.backs == mid.backs + sent;
  }

  lemma OneMoreGoesOn(orders: seq<OrderItem>, batch: seq<OrderItem>, i: nat, sendFails: seq<bool>)
    requires |sendFails| == |batch| && i < |batch| && NoneStops(orders, batch[..i], sendFails[..i])
    requires !Stops(orders, batch[i], sendFails[i])
    ensures NoneStops(orders, batch[..i + 1], sendFails[..i + 1])
  {
    assert batch[..i + 1] == batch[..i] + [batch[i]] && sendFails[..i + 1] == sendFails[..i] + [sendFails[i]];
  }

  lemma MentionsOneMore(batch: seq<OrderItem>, i: nat)
    requires i < |batch|
    ensures forall no :: Mentions(batch[..i + 1], no) <==> Mentions(batch[..i], no) || batch[i].no == no
  {
    assert batch[..i + 1] == batch[..i] + [batch[i]];
    forall no | Mentions(batch[..i], no) ensures Mentions(batch[..i + 1], no) {
      var j :| 0 <= j < i && batch[j].no == no;
      assert batch[..i + 1][j].no == no;
    }
    assert batch[..i + 1][i] == batch[i];
  }

  /** Orders are only ever closed, paid ones are left alone, and the batch's own are settled afterwards. */
  lemma BatchSettles(orders: seq<OrderItem>, batch: seq<OrderItem>, no: string)
    ensures OnlyClosed(orders, ClosedBy(orders, batch))
    ensures StatusOf(ClosedBy(orders, batch), no) ==
            if Mentions(batch, no) && Saga.MustClose(StatusOf(orders, no)) then Some(Saga.CLOSED)
            else StatusOf(orders, no)
    ensures Mentions(batch, no) && StatusOf(orders, no).Some? ==> Settled(StatusOf(ClosedBy(orders, batch), no))
  {
    FindByNumber(orders, ClosedBy(orders, batch), no);
  }

  /** Nothing is left for the message to do. */
  predicate Handled(orders: seq<OrderItem>, message: OrderItem)
  {
    StatusOf(orders, message.no).None? || Settled(StatusOf(orders, message.no))
  }

  /** The broker drops a batch that was answered with ConsumeSuccess. All its messages have been handled then exactly
      when no message after a missing order names an order that is there, is not settled, and did not come earlier
      in the batch. */
  lemma SuccessMeansAllHandledIff(orders: seq<OrderItem>, batch: seq<OrderItem>, sendFails: seq<bool>, n: nat)
    requires |sendFails| == |batch| && FirstStop(orders, batch, sendFails, n)
    requires Answer(orders, batch, n) == ConsumeSuccess
    ensures (forall m :: m in batch ==> Handled(ClosedBy(orders, batch[..n]), m)) <==>
            (forall j :: n < j < |batch| ==> Handled(orders, batch[j]) || Mentions(batch[..n], batch[j].no))
  {
    var after := ClosedBy(orders, batch[..n]);
    forall j | 0 <= j < |batch|
      ensures Handled(after, batch[j]) <==> Handled(orders, batch[j]) || Mentions(batch[..n], batch[j].no)
    {
      BatchSettles(orders, batch[..n], batch[j].no);
    }
    forall j | 0 <= j < |batch| && j <= n
      ensures Handled(orders, batch[j]) || Mentions(batch[..n], batch[j].no)
    {
      assert j < n ==> batch[..n][j] == batch[j];
    }
    if forall m :: m in batch ==> Handled(after, m) {
      forall j | n < j < |batch| ensures Handled(orders, batch[j]) || Mentions(batch[..n], batch[j].no) {
        assert batch[j] in batch;
      }
    }
  }

  /** So behind a message for a missing order an unpaid order is acknowledged and left unpaid, with nothing sent. */
  lemma MissingOrderHidesTheNext(orders: seq<OrderItem>, missing: OrderItem, unpaid: OrderItem, sendFails: seq<bool>,
                                 n: nat)
    requires StatusOf(orders, missing.no).None? && StatusOf(orders, unpaid.no) == Some(Saga.UNPAID)
    requires |sendFails| == 2 && FirstStop(orders, [missing, unpaid], sendFails, n)
    ensures Answer(orders, [missing, unpaid], n) == ConsumeSuccess
    ensures StatusOf(ClosedBy(orders, [missing, unpaid][..n]), unpaid.no) == Some(Saga.UNPAID)
    ensures SentBack(orders, [missing, unpaid][..n]) == []
  {
    assert [missing, unpaid][0] == missing && n == 0;
    NothingClosed(orders);
  }

  ghost predicate OnlyClosed(before: seq<OrderItem>, after: seq<OrderItem>)
  {
    && SameNumbers(before, after)
    && forall k :: 0 <= k < |after| ==>
         after[k] == before[k] ||
         (before[k].status != Saga.PAID && after[k] == before[k].(status := Saga.CLOSED))
  }

  predicate Matches(order: OrderItem, id: int, no: string) { order.id == id && order.no == no }

  /** Paid or closed: no timeout is needed any more. */
  predicate Settled(status: Option<string>)
  {
    status.Some? && (status.value == Saga.PAID || status.value == Saga.CLOSED)
  }

  ghost predicate SameNumbers(a: seq<OrderItem>, b: seq<OrderItem>)
  {
    |a| == |b| && forall k :: 0 <= k < |a| ==> a[k].no == b[k].no
  }

  lemma {:induction false} FindByNumber(a: seq<OrderItem>, b: seq<OrderItem>, no: string)
    requires SameNumbers(a, b)
    ensures Find(a, no) == Find(b, no)
  {
    if a != [] {
      FindByNumber(a[1..], b[1..], no);
    }
  }
}
