/** The consumer of "give back" messages: returns an order's stock once, guarded by its ledger row,
    however often and in whatever order the broker delivers. */
module BackStockConsumer {
  import opened Common
  import opened Quantities

  /** A message body: an order number, or bytes that do not decode. */
  datatype Message = OrderNo(no: string) | Undecodable

  datatype Db = Db(stock: Stock, ledger: LedgerTable)

  /** The message names an order that is sold and not given back. */
  predicate Pending(ledger: LedgerTable, message: Message)
  {
    message.OrderNo? && message.no in ledger && ledger[message.no].status.HasSell?
  }

  /** The first message of the batch is pending. Later messages of the batch are never looked at. */
  ghost predicate FindsSale(ledger: LedgerTable, batch: seq<Message>)
  {
    batch != [] && Pending(ledger, batch[0])
  }

  ghost predicate GivesBack(db: Db, batch: seq<Message>)
  {
    FindsSale(db.ledger, batch) && AllListed(db.stock, db.ledger[batch[0].no].details)
  }

  /** Redelivery is asked for exactly when a sold order's stock row is missing. */
  ghost function Answer(db: Db, batch: seq<Message>): ConsumeResult
  {
    if FindsSale(db.ledger, batch) && !GivesBack(db, batch) then ConsumeRetryLater else ConsumeSuccess
  }

  class Consumer {
    var stock: Stock
    var ledger: LedgerTable

    constructor (db: Db)
      ensures Db(stock, ledger) == db
    {
      stock, ledger := db.stock, db.ledger;
    }

    /** Either commits stock and ledger together, or leaves both alone. */
    method Handle(batch: seq<Message>) returns (r: ConsumeResult)
      modifies this
      ensures Db(stock, ledger) == Deliver(old(Db(stock, ledger)), Attempt(batch, true))
      ensures r == Answer(old(Db(stock, ledger)), batch)
      ensures r == ConsumeRetryLater ==> Db(stock, ledger) == old(Db(stock, ledger))
    {
      if batch == [] || batch[0].Undecodable? {
        return ConsumeSuccess;
      }
      var no := batch[0].no;
      if no !in ledger || ledger[no].status != HasSell {
        return ConsumeSuccess;
      }
      var detail := ledger[no];
      var tx := stock;
      for i := 0 to |detail.details|
        invariant stock == old(stock) && ledger == old(ledger)
        invariant tx.Keys == stock.Keys
        invariant forall j :: 0 <= j < i ==> detail.details[j].product in stock
        invariant forall p :: p in tx ==> tx[p] == stock[p] + Total(detail.details[..i], p)
      {
        var item := detail.details[i];
        if item.product !in tx {
          assert !AllListed(stock, detail.details);
          return ConsumeRetryLater;
        }
        TotalStepAll(detail.details, i);
        tx := tx[item.product := tx[item.product] + item.num];
      }
      assert detail.details[..|detail.details|] == detail.details;
      stock, ledger := tx, ledger[no := detail.(status := HasBack)];
      return ConsumeSuccess;
    }
  }

  /** One delivery attempt; an attempt that does not complete (a crash, a lost database connection)
      never commits its transaction. */
  datatype Delivery = Attempt(batch: seq<Message>, completes: bool)

  ghost function Deliver(db: Db, d: Delivery): Db
  {
    if d.completes && GivesBack(db, d.batch) then
      var no := d.batch[0].no;
      Db(Add(db.stock, db.ledger[no].details), db.ledger[no := db.ledger[no].(status := HasBack)])
    else db
  }

  ghost function DeliverAll(db: Db, ds: seq<Delivery>): Db
  {
    if ds == [] then db else Deliver(DeliverAll(db, ds[..|ds| - 1]), ds[|ds| - 1])
  }

  /** The distinct orders sold in db that had at least one attempt that could go through. */
  ghost function Served(db: Db, ds: seq<Delivery>): set<string>
  {
    set k | 0 <= k < |ds| && ds[k].completes && GivesBack(db, ds[k].batch) :: ds[k].batch[0].no
  }

  /** What a set of orders holds of product p, each order once. */
  ghost function Owed(ledger: LedgerTable, orders: set<string>, p: int): int
    requires orders <= ledger.Keys
  {
    if orders == {} then 0
    else
      var no :| no in orders;
      Total(ledger[no].details, p) + Owed(ledger, orders - {no}, p)
  }

  lemma {:induction false} OwedRemove(ledger: LedgerTable, orders: set<string>, no: string, p: int)
    requires no in orders && orders <= ledger.Keys
    ensures Owed(ledger, orders, p) == Total(ledger[no].details, p) + Owed(ledger, orders - {no}, p)
  {
    var first :| first in orders && Owed(ledger, orders, p) ==
      Total(ledger[first].details, p) + Owed(ledger, orders - {first}, p);
    if first != no {
      OwedRemove(ledger, orders - {first}, no, p);
      OwedRemove(ledger, orders - {no}, first, p);
      assert orders - {first} - {no} == orders - {no} - {first};
    }
  }

  /** `end` is db with each of the orders given back once. */
  ghost predicate OnceEach(db: Db, orders: set<string>, end: Db)
  {
    && orders <= db.ledger.Keys
    && end.stock.Keys == db.stock.Keys
    && end.ledger.Keys == db.ledger.Keys
    && (forall p :: p in db.stock ==> end.stock[p] == db.stock[p] + Owed(db.ledger, orders, p))
    && (forall no :: no in db.ledger - orders ==> end.ledger[no] == db.ledger[no])
    && (forall no :: no in orders ==> end.ledger[no] == db.ledger[no].(status := HasBack))
  }

  /** Exactly once under at-least-once delivery. For every finite sequence of attempts, with any repeats,
      orderings and failures: each order that was sold and had one attempt that could go through is
      given back once, its status is HasBack for good, and nothing else changes. */
  lemma {:induction false} GivenBackExactlyOnce(db: Db, ds: seq<Delivery>)
    ensures OnceEach(db, Served(db, ds), DeliverAll(db, ds))
  {
    if ds == [] {
      assert Served(db, ds) == {};
    } else {
      var init, d := ds[..|ds| - 1], ds[|ds| - 1];
      GivenBackExactlyOnce(db, init);
      ServedSnoc(db, init, d);
      assert init + [d] == ds;
      OneMoreDelivery(db, Served(db, init), DeliverAll(db, init), d);
    }
  }

  /** A delivery gives its order back unless that was done before. */
  lemma OneMoreDelivery(db: Db, served: set<string>, mid: Db, d: Delivery)
    requires OnceEach(db, served, mid)
    requires forall no :: no in served ==> db.ledger[no].status.HasSell?
    ensures OnceEach(db, served + (if d.completes && GivesBack(db, d.batch) then {d.batch[0].no} else {}),
                     Deliver(mid, d))
  {
    if d.batch != [] && d.batch[0].OrderNo? && d.batch[0].no in db.ledger {
      var no := d.batch[0].no;
      assert no in served || no in db.ledger - served;
      if d.completes && GivesBack(db, d.batch) && no !in served {
        OneMoreServed(db, served, mid, no);
      } else {
        assert Deliver(mid, d) == mid;
        assert served + (if d.completes && GivesBack(db, d.batch) then {no} else {}) == served;
      }
    } else {
      assert served + {} == served;
    }
  }

  lemma OneMoreServed(db: Db, served: set<string>, mid: Db, no: string)
    requires OnceEach(db, served, mid) && no in db.ledger && no !in served
    ensures OnceEach(db, served + {no},
                     Db(Add(mid.stock, db.ledger[no].details),
                        mid.ledger[no := db.ledger[no].(status := HasBack)]))
  {
    forall p ensures Owed(db.ledger, served + {no}, p) == Total(db.ledger[no].details, p) + Owed(db.ledger, served, p) {
      OwedRemove(db.ledger, served + {no}, no, p);
      assert served + {no} - {no} == served;
    }
  }

  lemma OnceEachIsUnique(db: Db, orders: set<string>, x: Db, y: Db)
    requires OnceEach(db, orders, x) && OnceEach(db, orders, y)
    ensures x == y
  {
    forall p | p in db.stock ensures x.stock[p] == y.stock[p] {
      assert x.stock[p] == db.stock[p] + Owed(db.ledger, orders, p);
    }
    assert x.stock == y.stock;
    forall no | no in db.ledger ensures x.ledger[no] == y.ledger[no] {
      assert no in orders || no in db.ledger - orders;
    }
    assert x.ledger == y.ledger;
  }

  lemma ServedSnoc(db: Db, ds: seq<Delivery>, d: Delivery)
    ensures Served(db, ds + [d]) ==
            Served(db, ds) + if d.completes && GivesBack(db, d.batch) then {d.batch[0].no} else {}
  {
    var all := ds + [d];
    assert all[|ds|] == d;
    forall no | no in Served(db, ds) ensures no in Served(db, all) {
      var k :| 0 <= k < |ds| && ds[k].completes && GivesBack(db, ds[k].batch) && ds[k].batch[0].no == no;
      assert all[k] == ds[k];
    }
  }

  /** So the outcome depends on which orders were served, not on how the deliveries were arranged. */
  lemma DeliveryOrderIsIrrelevant(db: Db, a: seq<Delivery>, b: seq<Delivery>)
    requires Served(db, a) == Served(db, b)
    ensures DeliverAll(db, a) == DeliverAll(db, b)
  {
    GivenBackExactlyOnce(db, a);
    GivenBackExactlyOnce(db, b);
    OnceEachIsUnique(db, Served(db, a), DeliverAll(db, a), DeliverAll(db, b));
  }

  /** One attempt gives a sold order's stock back exactly when it goes through, names the order first, and
      every product of the order's list has a stock row. */
  lemma AttemptGivesBackIff(db: Db, d: Delivery, no: string)
    requires no in db.ledger && db.ledger[no].status == HasSell
    ensures Deliver(db, d).ledger[no].status == HasBack <==>
            && d.completes && d.batch != [] && d.batch[0] == OrderNo(no)
            && forall line :: line in db.ledger[no].details ==> line.product in db.stock
    ensures Deliver(db, d).ledger[no].status == HasBack ==>
            forall p :: p in db.stock ==> Deliver(db, d).stock[p] == db.stock[p] + Total(db.ledger[no].details, p)
  {
  }

  /** Redelivery is asked for exactly when the first message names a sold order of which some product has no row. */
  lemma RetriedIff(db: Db, batch: seq<Message>)
    ensures Answer(db, batch) == ConsumeRetryLater <==>
            && batch != [] && batch[0].OrderNo? && batch[0].no in db.ledger
            && db.ledger[batch[0].no].status == HasSell
            && exists line :: line in db.ledger[batch[0].no].details && line.product !in db.stock
  {
  }

  // ----- batches -----

  /** The broker drops a batch that was answered with ConsumeSuccess. All its messages have been handled then exactly
      when every message after the first was not pending anyway or repeats the first. */
  lemma SuccessMeansAllHandledIff(db: Db, batch: seq<Message>)
    requires Answer(db, batch) == ConsumeSuccess
    ensures var after := Deliver(db, Attempt(batch, true));
            (forall m :: m in batch ==> !Pending(after.ledger, m)) <==>
            (forall k :: 0 < k < |batch| ==> !Pending(db.ledger, batch[k]) || batch[k] == batch[0])
  {
    var after := Deliver(db, Attempt(batch, true));
    forall m | m in batch && m != batch[0] ensures Pending(after.ledger, m) <==> Pending(db.ledger, m) {
    }
  }

  /** So a batch of two sold orders is acknowledged with the second one still sold, and without another message for it
      it stays so. */
  lemma {:induction false} SecondSaleIsForgotten(db: Db, first: string, second: string, ds: seq<Delivery>)
    requires first != second && Pending(db.ledger, OrderNo(first)) && Pending(db.ledger, OrderNo(second))
    requires AllListed(db.stock, db.ledger[first].details)
    requires forall k :: 0 <= k < |ds| && ds[k].batch != [] ==> ds[k].batch[0] != OrderNo(second)
    ensures Answer(db, [OrderNo(first), OrderNo(second)]) == ConsumeSuccess
    ensures var end := DeliverAll(Deliver(db, Attempt([OrderNo(first), OrderNo(second)], true)), ds);
            second in end.ledger && end.ledger[second] == db.ledger[second]
  {
    if ds != [] {
      SecondSaleIsForgotten(db, first, second, ds[..|ds| - 1]);
    }
  }
}
