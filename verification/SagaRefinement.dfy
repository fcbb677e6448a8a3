/** The handlers simulate the saga. Tables, queues, ledger and stock represent a state of the saga; whatever a handler's
    contract lets it do to them, the saga has a run under a timely broker that leads to a state represented by the
    outcome. Every lemma here takes a handler's contract as its hypothesis. */
module SagaRefinement {
  import opened Common
  import opened Quantities
  import opened Saga
  import opened SagaSafety
  import Checkout
  import Consumer = BackStockConsumer
  import Orders = OrderService

  // ----- what represents what -----

  predicate IsFor(body: Orders.Body, no: string) { body.Encoded? && body.item.no == no }

  /** The queued messages that name this order. */
  function CountFor(queue: seq<Orders.Body>, no: string): nat
  {
    if queue == [] then 0
    else
      var last := queue[|queue| - 1];
      CountFor(queue[..|queue| - 1], no) + if IsFor(last, no) then 1 else 0
  }

  /** Tables, queues and ledger say about this order number what the saga says about the order. */
  ghost predicate Shows(o: Order, no: string, t: Orders.Tables, ledger: LedgerTable)
  {
    && o.row == Orders.StatusOf(t.orders, no)
    && o.timeouts == CountFor(t.timeouts, no)
    && o.backs == CountFor(t.backs, no)
    && (o.ledger.None? ==> no !in ledger)
    && (o.ledger.Some? ==> no in ledger && ledger[no] == StockItemDetail(o.ledger.value, o.lines))
  }

  /** Order i of the saga has the number nos[i]; the stock is the saga's own. */
  ghost predicate Represents(s: State, nos: seq<string>, t: Orders.Tables, ledger: LedgerTable)
  {
    && |nos| == |s.orders|
    && (forall i, j :: 0 <= i < j < |nos| ==> nos[i] != nos[j])
    && forall i :: 0 <= i < |nos| ==> Shows(s.orders[i], nos[i], t, ledger)
  }

  ghost predicate OthersKeepStatus(no: string, a: seq<Orders.OrderItem>, b: seq<Orders.OrderItem>)
  {
    forall other :: other != no ==> Orders.StatusOf(b, other) == Orders.StatusOf(a, other)
  }

  ghost predicate OthersKeepCount(no: string, a: seq<Orders.Body>, b: seq<Orders.Body>)
  {
    forall other :: other != no ==> CountFor(b, other) == CountFor(a, other)
  }

  ghost predicate OthersKeepLedger(no: string, a: LedgerTable, b: LedgerTable)
  {
    forall other :: other != no ==> (other in b <==> other in a) && (other in a ==> b[other] == a[other])
  }

  /** Nothing changes for any other order number. */
  ghost predicate OnlyAbout(no: string, t: Orders.Tables, ledger: LedgerTable, t': Orders.Tables, ledger': LedgerTable)
  {
    && OthersKeepStatus(no, t.orders, t'.orders)
    && OthersKeepCount(no, t.timeouts, t'.timeouts)
    && OthersKeepCount(no, t.backs, t'.backs)
    && OthersKeepLedger(no, ledger, ledger')
  }

  lemma StillRepresents(s: State, nos: seq<string>, t: Orders.Tables, ledger: LedgerTable, i: nat, s': State,
                        t': Orders.Tables, ledger': LedgerTable)
    requires Represents(s, nos, t, ledger) && i < |nos| && OnlyAbout(nos[i], t, ledger, t', ledger')
    requires |s'.orders| == |s.orders| && s'.orders == s.orders[i := s'.orders[i]]
    requires Shows(s'.orders[i], nos[i], t', ledger')
    ensures Represents(s', nos, t', ledger')
  {
    forall j | 0 <= j < |nos| && j != i ensures Shows(s'.orders[j], nos[j], t', ledger') {
      assert nos[j] != nos[i] && Shows(s.orders[j], nos[j], t, ledger);
    }
  }

  // ----- queues and the order table -----

  lemma CountMore(queue: seq<Orders.Body>, body: Orders.Body, no: string)
    requires IsFor(body, no)
    ensures CountFor(queue + [body], no) == CountFor(queue, no) + 1
    ensures OthersKeepCount(no, queue, queue + [body])
  {
    forall other | other != no ensures CountFor(queue + [body], other) == CountFor(queue, other) {
    }
  }

  /** The queue after message k has been acknowledged. */
  function Without(queue: seq<Orders.Body>, k: nat): seq<Orders.Body>
    requires k < |queue|
  {
    queue[..k] + queue[k + 1..]
  }

  lemma {:induction false} CountConcat(a: seq<Orders.Body>, b: seq<Orders.Body>, no: string)
    ensures CountFor(a + b, no) == CountFor(a, no) + CountFor(b, no)
  {
    if b == [] {
      assert a + b == a;
    } else {
      assert (a + b)[..|a + b| - 1] == a + b[..|b| - 1];
      CountConcat(a, b[..|b| - 1], no);
    }
  }

  lemma CountWithout(queue: seq<Orders.Body>, k: nat, no: string)
    requires k < |queue|
    ensures CountFor(queue, no) ==
            CountFor(Without(queue, k), no) + if IsFor(queue[k], no) then 1 else 0
  {
    assert queue == (queue[..k] + [queue[k]]) + queue[k + 1..];
    CountConcat(queue[..k] + [queue[k]], queue[k + 1..], no);
    CountConcat(queue[..k], queue[k + 1..], no);
  }

  lemma CountAcknowledged(queue: seq<Orders.Body>, k: nat, no: string)
    requires k < |queue| && IsFor(queue[k], no)
    ensures CountFor(queue, no) == CountFor(Without(queue, k), no) + 1
    ensures OthersKeepCount(no, queue, Without(queue, k))
  {
    CountWithout(queue, k, no);
    forall other | other != no ensures CountFor(Without(queue, k), other) == CountFor(queue, other) {
      CountWithout(queue, k, other);
    }
  }

  lemma {:induction false} FindInLonger(orders: seq<Orders.OrderItem>, item: Orders.OrderItem, no: string)
    ensures Orders.Find(orders + [item], no) ==
            if Orders.Find(orders, no) < |orders| || item.no == no then Orders.Find(orders, no) else |orders| + 1
  {
    if orders != [] {
      assert (orders + [item])[1..] == orders[1..] + [item];
      FindInLonger(orders[1..], item, no);
    }
  }

  lemma AddedOrder(orders: seq<Orders.OrderItem>, item: Orders.OrderItem)
    requires Orders.StatusOf(orders, item.no).None?
    ensures Orders.StatusOf(orders + [item], item.no) == Some(item.status)
    ensures OthersKeepStatus(item.no, orders, orders + [item])
  {
    FindInLonger(orders, item, item.no);
    forall other | other != item.no ensures Orders.StatusOf(orders + [item], other) == Orders.StatusOf(orders, other) {
      FindInLonger(orders, item, other);
    }
  }

  lemma ChangedOrder(orders: seq<Orders.OrderItem>, k: nat, status: string)
    requires k < |orders| && Orders.Find(orders, orders[k].no) == k
    ensures var after, no := orders[k := orders[k].(status := status)], orders[k].no;
            Orders.StatusOf(after, no) == Some(status) && OthersKeepStatus(no, orders, after)
  {
    var after, no := orders[k := orders[k].(status := status)], orders[k].no;
    Orders.FindByNumber(orders, after, no);
    forall other | other != no ensures Orders.StatusOf(after, other) == Orders.StatusOf(orders, other) {
      Orders.FindByNumber(orders, after, other);
    }
  }

  // ----- ExecuteLocalTransaction -----

  /** s' is s with another order in place i, and this stock. */
  ghost predicate Replaces(s: State, i: nat, o: Order, stock: Stock, s': State)
    requires i < |s.orders|
  {
    s'.orders == s.orders[i := o] && s'.stock == stock
  }

  /** The order as the steps after the sale leave it. */
  ghost function Wrote(o: Order, f: Orders.Faults): Order
  {
    o.(pc := Returned(if Orders.Written(o.lines, f) then RollbackMessage else CommitMessage),
       timeouts := o.timeouts + |Orders.Queued(Orders.Undecodable, o.lines, f)|,
       row := if Orders.Written(o.lines, f) then Some(UNPAID) else o.row)
  }

  lemma CommitRuns(s: State, m: State, i: nat) returns (s': State)
    requires Runs(true, s, m) && i < |m.orders| && m.orders[i].pc.Sending?
    ensures Runs(true, s, s')
    ensures var o := m.orders[i];
            Replaces(m, i, o.(pc := Returned(RollbackMessage), timeouts := o.timeouts + 1, row := Some(UNPAID)),
                     m.stock, s')
  {
    s' := ExecutorOn(true, s, m, i, SendOk);
    s' := ExecutorOn(true, s, s', i, Commit);
  }

  lemma UnsentRuns(s: State, m: State, i: nat, arrived: bool) returns (s': State)
    requires Runs(true, s, m) && i < |m.orders| && m.orders[i].pc.Saving? && m.orders[i].lines != []
    ensures Runs(true, s, s')
    ensures var o := m.orders[i];
            Replaces(m, i, o.(pc := Returned(CommitMessage), timeouts := o.timeouts + if arrived then 1 else 0),
                     m.stock, s')
  {
    s' := ExecutorOn(true, s, m, i, SaveOk);
    s' := ExecutorOn(true, s, s', i, SendFails(arrived));
  }

  /** The executor's run through the saga after its sale. */
  lemma WriteRuns(s: State, m: State, i: nat, f: Orders.Faults) returns (s': State)
    requires Runs(true, s, m) && i < |m.orders| && m.orders[i].pc.Saving?
    ensures Runs(true, s, s') && Replaces(m, i, Wrote(m.orders[i], f), m.stock, s')
  {
    var list := m.orders[i].lines;
    if Orders.Written(list, f) {
      s' := ExecutorOn(true, s, m, i, SaveOk);
      s' := CommitRuns(s, s', i);
    } else if Orders.Unsendable(list, f) {
      s' := UnsentRuns(s, m, i, !f.producerFails && !f.startFails && f.arrived);
    } else {
      s' := ExecutorOn(true, s, m, i, SaveFails);
    }
  }

  /** A whole run of the executor, told by what it sold and which calls failed. */
  ghost function Ended(o: Order, list: Option<seq<Line>>, stock: Stock, f: Orders.Faults): Order
  {
    if list.None? then o.(pc := Returned(RollbackMessage))
    else if !Orders.Sold(list, stock, f) then o.(pc := Returned(RollbackMessage), lines := list.value)
    else if f.replyLost then
      o.(pc := Returned(RollbackMessage), lines := list.value, ledger := Some(HasSell), replyLost := true)
    else Wrote(o.(lines := list.value, ledger := Some(HasSell), pc := Saving), f)
  }

  lemma SaleRuns(s: State, m: State, i: nat, f: Orders.Faults) returns (s': State)
    requires Runs(true, s, m) && i < |m.orders| && m.orders[i].pc.Selling?
    requires Sellable(m.stock, m.orders[i].lines) && !f.replyLost
    ensures Runs(true, s, s')
    ensures Replaces(m, i, Wrote(m.orders[i].(ledger := Some(HasSell), pc := Saving), f),
                     Subtract(m.stock, m.orders[i].lines), s')
  {
    s' := ExecutorOn(true, s, m, i, SellOk);
    s' := WriteRuns(s, s', i, f);
  }

  lemma ExecutorRuns(s: State, i: nat, list: Option<seq<Line>>, f: Orders.Faults) returns (s': State)
    requires i < |s.orders| && s.orders[i].pc.Starting?
    requires list.Some? ==> s.orders[i].decodes && NonNegative(list.value)
    ensures Runs(true, s, s')
    ensures Replaces(s, i, Ended(s.orders[i], list, s.stock, f),
                     if Orders.Sold(list, s.stock, f) then Subtract(s.stock, list.value) else s.stock, s')
  {
    StartsAt(true, s);
    if list.None? {
      s' := ExecutorOn(true, s, s, i, ExitEarly);
      return;
    }
    s' := ExecutorOn(true, s, s, i, ReadCart(list.value));
    if !Orders.Sold(list, s.stock, f) {
      s' := ExecutorOn(true, s, s', i, SellRefused);
    } else if f.replyLost {
      s' := ExecutorOn(true, s, s', i, SellReplyLost);
    } else {
      s' := SaleRuns(s, s', i, f);
    }
  }

  lemma {:induction false} LastNumNotNegative(lines: seq<Line>, p: int)
    requires NonNegative(lines)
    ensures LastNum(lines, p) >= 0
  {
    if lines != [] {
      LastNumNotNegative(lines[..|lines| - 1], p);
    }
  }

  /** A cart without negative quantities makes an order without. */
  lemma SoldListIsNotNegative(body: Orders.Body, account: int, cart: seq<Checkout.CartRow>, catalogue: Orders.Catalogue)
    requires forall row :: row in cart ==> row.num >= 0
    ensures var list := Orders.ToSell(body, account, cart, catalogue); list.Some? ==> NonNegative(list.value)
  {
    var rows := Checkout.Checked(cart, account);
    Checkout.TakenAreRows(cart, account);
    forall p ensures LastNum(Checkout.AsLines(rows), p) >= 0 {
      forall i | 0 <= i < |rows| ensures rows[i].num >= 0 {
        assert rows[i] in rows;
      }
      LastNumNotNegative(Checkout.AsLines(rows), p);
    }
  }

  /** The sale's transaction also writes the ledger row of its order. */
  ghost function LedgerAfterSale(ledger: LedgerTable, no: string, list: Option<seq<Line>>, stock: Stock,
                                 f: Orders.Faults): LedgerTable
  {
    if Orders.Sold(list, stock, f) then ledger[no := StockItemDetail(HasSell, list.value)] else ledger
  }

  lemma NothingChanges(o: Order, no: string, ledger: LedgerTable, t: Orders.Tables, t': Orders.Tables)
    requires Shows(o, no, t, ledger)
    requires t'.timeouts == t.timeouts && t'.orders == t.orders && t'.backs == t.backs
    ensures Shows(o, no, t', ledger) && OnlyAbout(no, t, ledger, t', ledger)
  {
  }

  lemma CountQueued(queue: seq<Orders.Body>, body: Orders.Body, queued: seq<Orders.Body>, no: string)
    requires IsFor(body, no) && (queued == [] || queued == [body])
    ensures CountFor(queue + queued, no) == CountFor(queue, no) + |queued|
    ensures OthersKeepCount(no, queue, queue + queued)
  {
    if queued == [] {
      assert queue + queued == queue;
    } else {
      CountMore(queue, body, no);
    }
  }

  /** The order row as WriteOrder leaves it. */
  lemma RowWritten(body: Orders.Body, list: seq<Line>, f: Orders.Faults, before: Orders.Tables, after: Orders.Tables,
                   amount: real, no: string)
    requires IsFor(body, no) && Orders.StatusOf(before.orders, no).None?
    requires if Orders.Written(list, f)
             then Orders.OrderAdded(before.orders, after.orders, body.item, before.nextId, amount)
             else after.orders == before.orders
    ensures Orders.StatusOf(after.orders, no) == if Orders.Written(list, f) then Some(UNPAID) else None
    ensures OthersKeepStatus(no, before.orders, after.orders)
  {
    if Orders.Written(list, f) {
      AddedOrder(before.orders, body.item.(id := before.nextId, status := UNPAID, amount := amount));
    }
  }

  /** What is written and queued is what the saga's steps after the sale say. */
  lemma WroteShows(o: Order, no: string, ledger: LedgerTable, f: Orders.Faults, before: Orders.Tables,
                   after: Orders.Tables)
    requires o.row.None? && Shows(o, no, before, ledger) && after.backs == before.backs
    requires CountFor(after.timeouts, no) ==
             CountFor(before.timeouts, no) + |Orders.Queued(Orders.Undecodable, o.lines, f)|
    requires OthersKeepCount(no, before.timeouts, after.timeouts)
    requires Orders.StatusOf(after.orders, no) == if Orders.Written(o.lines, f) then Some(UNPAID) else None
    requires OthersKeepStatus(no, before.orders, after.orders)
    ensures Shows(Wrote(o, f), no, after, ledger) && OnlyAbout(no, before, ledger, after, ledger)
  {
  }

  lemma EndedShows(o: Order, no: string, ledger: LedgerTable, body: Orders.Body, account: int,
                   catalogue: Orders.Catalogue, f: Orders.Faults, before: Orders.Tables, stock: Stock,
                   after: Orders.Tables, stock': Stock, amount: real, v: Verdict)
    requires o.row.None? && o.ledger.None? && Shows(o, no, before, ledger)
    requires body.Encoded? ==> body.item.no == no
    requires Orders.Executed(body, account, catalogue, f, before, stock, after, stock', amount, v)
    ensures var list := Orders.ToSell(body, account, before.cart, catalogue);
            var ledger' := LedgerAfterSale(ledger, no, list, stock, f);
            && Shows(Ended(o, list, stock, f), no, after, ledger')
            && OnlyAbout(no, before, ledger, after, ledger')
  {
    var list := Orders.ToSell(body, account, before.cart, catalogue);
    if !Orders.Sold(list, stock, f) {
      assert after.timeouts == before.timeouts;
      NothingChanges(o, no, ledger, before, after);
      return;
    }
    var sold := o.(lines := list.value, ledger := Some(HasSell), pc := Saving);
    var ledger' := ledger[no := StockItemDetail(HasSell, list.value)];
    if f.replyLost {
      assert after.timeouts == before.timeouts;
      NothingChanges(sold, no, ledger', before, after);
    } else {
      CountQueued(before.timeouts, body, Orders.Queued(body, list.value, f), no);
      RowWritten(body, list.value, f, before, after, amount, no);
      WroteShows(sold, no, ledger', f, before, after);
    }
  }

  /** Whatever ExecuteLocalTransaction's contract allows for a fresh order is a run of the saga from a state that
      represents the tables before to one that represents those after. It ends with the verdict that the broker is
      told, and only the order's own part of the state has changed. */
  lemma ExecuteSimulatesSaga(s: State, i: nat, nos: seq<string>, ledger: LedgerTable, body: Orders.Body, account: int,
                             catalogue: Orders.Catalogue, f: Orders.Faults, before: Orders.Tables,
                             after: Orders.Tables, stock': Stock, amount: real, v: Verdict)
    returns (s': State)
    requires Reachable(true, s) && Represents(s, nos, before, ledger) && i < |nos| && s.orders[i].pc.Starting?
    requires s.orders[i].decodes == body.Encoded? && (body.Encoded? ==> body.item.no == nos[i])
    requires forall row :: row in before.cart ==> row.num >= 0
    requires Orders.Executed(body, account, catalogue, f, before, s.stock, after, stock', amount, v)
    ensures Runs(true, s, s') && s'.stock == stock' && |s'.orders| == |s.orders|
    ensures var list := Orders.ToSell(body, account, before.cart, catalogue);
            && Represents(s', nos, after, LedgerAfterSale(ledger, nos[i], list, s.stock, f))
            && OnlyAbout(nos[i], before, ledger, after, LedgerAfterSale(ledger, nos[i], list, s.stock, f))
            && s'.orders[i].pc == Returned(v) && s'.orders[i].half
            && (s'.orders[i].replyLost <==> Orders.Sold(list, s.stock, f) && f.replyLost)
            && (var o' := s'.orders[i];
                o' == s.orders[i].(pc := o'.pc, lines := o'.lines, ledger := o'.ledger, row := o'.row,
                                   timeouts := o'.timeouts, replyLost := o'.replyLost))
            && s'.orders == s.orders[i := s'.orders[i]]
  {
    var list := Orders.ToSell(body, account, before.cart, catalogue);
    ReachableIsTidy(s, i);
    SoldListIsNotNegative(body, account, before.cart, catalogue);
    s' := ExecutorRuns(s, i, list, f);
    EndedShows(s.orders[i], nos[i], ledger, body, account, catalogue, f, before, s.stock, after, stock', amount, v);
    StillRepresents(s, nos, before, ledger, i, s', after, LedgerAfterSale(ledger, nos[i], list, s.stock, f));
  }

  // ----- the timeout consumer -----

  /** The order once its timeout message has been handled. */
  function Handled(o: Order, sendFails: bool): Order
    requires o.timeouts > 0
  {
    if !MustClose(o.row) then o.(timeouts := o.timeouts - 1)
    else if sendFails then o
    else o.(timeouts := o.timeouts - 1, backs := o.backs + 1, row := Some(CLOSED), backSent := true)
  }

  lemma CloseRuns(s: State, m: State, i: nat) returns (s': State)
    requires Runs(true, s, m) && i < |m.orders| && m.orders[i].closing > 0 && m.orders[i].sent == 0
    ensures Runs(true, s, s')
    ensures var o := m.orders[i].(closing := m.orders[i].closing - 1);
            Replaces(m, i, o.(backs := o.backs + 1, row := Some(CLOSED), backSent := true), m.stock, s')
  {
    s' := TimeoutOn(true, s, m, i, CloseSend);
    s' := TimeoutOn(true, s, s', i, CloseCommit);
  }

  lemma ReplacedTwice(s: State, i: nat, o: Order, stock: Stock, m: State, o': Order, stock': Stock, s': State)
    requires i < |s.orders| && Replaces(s, i, o, stock, m) && Replaces(m, i, o', stock', s')
    ensures Replaces(s, i, o', stock', s')
  {
  }

  lemma TakeRuns(s: State, i: nat) returns (m: State)
    requires i < |s.orders| && s.orders[i].timeouts > 0 && !Running(s.orders[i])
    ensures Runs(true, s, m)
    ensures var o := s.orders[i];
            Replaces(s, i, o.(timeouts := o.timeouts - 1, closing := o.closing + if MustClose(o.row) then 1 else 0),
                     s.stock, m)
  {
    StartsAt(true, s);
    m := TimeoutOn(true, s, s, i, TakeTimeout);
  }

  /** The saga's run through one handled timeout message. */
  lemma TimeoutRuns(s: State, i: nat, sendFails: bool) returns (s': State)
    requires i < |s.orders| && s.orders[i].timeouts > 0 && s.orders[i].sent == 0 && !Running(s.orders[i])
    ensures Runs(true, s, s') && Replaces(s, i, Handled(s.orders[i], sendFails), s.stock, s')
  {
    var m := TakeRuns(s, i);
    s' := m;
    if MustClose(s.orders[i].row) {
      if sendFails {
        s' := TimeoutOn(true, s, m, i, CloseSendFails(false));
      } else {
        s' := CloseRuns(s, m, i);
      }
      ReplacedTwice(s, i, m.orders[i], s.stock, m, Handled(s.orders[i], sendFails), s.stock, s');
    }
  }

  /** The tables once the broker has taken the answer: the message is gone unless its handling failed. */
  function Answered(t: Orders.Tables, k: nat, failed: bool): Orders.Tables
    requires k < |t.timeouts|
  {
    if failed then t else t.(timeouts := Without(t.timeouts, k))
  }

  lemma AcknowledgedShows(o: Order, no: string, ledger: LedgerTable, k: nat, t: Orders.Tables)
    requires Shows(o, no, t, ledger)
    requires k < |t.timeouts| && IsFor(t.timeouts[k], no)
    ensures o.timeouts > 0
    ensures var t' := t.(timeouts := Without(t.timeouts, k));
            Shows(o.(timeouts := o.timeouts - 1), no, t', ledger) && OnlyAbout(no, t, ledger, t', ledger)
  {
    CountAcknowledged(t.timeouts, k, no);
  }

  /** What closing an order does to table and queues. */
  lemma ClosingCounts(no: string, k: nat, order: Orders.OrderItem, before: Orders.Tables, after: Orders.Tables)
    requires order.no == no && k < |before.timeouts| && before.timeouts[k] == Orders.Encoded(order)
    requires var j := Orders.Find(before.orders, no);
             && j < |before.orders|
             && after == before.(orders := before.orders[j := before.orders[j].(status := CLOSED)],
                                 backs := before.backs + [Orders.Encoded(order)])
    ensures Orders.StatusOf(after.orders, no) == Some(CLOSED) && OthersKeepStatus(no, before.orders, after.orders)
    ensures var rest := Without(after.timeouts, k);
            CountFor(rest, no) == CountFor(before.timeouts, no) - 1 && OthersKeepCount(no, before.timeouts, rest)
    ensures CountFor(after.backs, no) == CountFor(before.backs, no) + 1
    ensures OthersKeepCount(no, before.backs, after.backs)
  {
    CountMore(before.backs, Orders.Encoded(order), no);
    CountAcknowledged(before.timeouts, k, no);
    ChangedOrder(before.orders, Orders.Find(before.orders, no), CLOSED);
  }

  lemma TimedOutShows(o: Order, no: string, ledger: LedgerTable, k: nat, order: Orders.OrderItem, sendFails: bool,
                      before: Orders.Tables, after: Orders.Tables, missing: bool, failed: bool)
    requires Shows(o, no, before, ledger) && order.no == no && o.timeouts > 0
    requires k < |before.timeouts| && before.timeouts[k] == Orders.Encoded(order)
    requires Orders.TimedOut(order, sendFails, before, after, missing, failed)
    ensures Shows(Handled(o, sendFails), no, Answered(after, k, failed), ledger)
    ensures OnlyAbout(no, before, ledger, Answered(after, k, failed), ledger)
  {
    if !MustClose(o.row) {
      AcknowledgedShows(o, no, ledger, k, before);
    } else if sendFails {
      NothingChanges(o, no, ledger, before, after);
    } else {
      ClosingCounts(no, k, order, before, after);
    }
  }

  /** Whatever HandleTimeout's contract allows for a queued message is a run of the saga: the order is closed exactly
      when one more "give back" message is queued, and the timeout message stays queued exactly when that failed. */
  lemma TimeoutSimulatesSaga(s: State, i: nat, nos: seq<string>, ledger: LedgerTable, k: nat, order: Orders.OrderItem,
                             sendFails: bool, before: Orders.Tables, after: Orders.Tables, missing: bool, failed: bool)
    returns (s': State)
    requires Represents(s, nos, before, ledger) && i < |nos| && order.no == nos[i]
    requires s.orders[i].sent == 0 && !Running(s.orders[i])
    requires k < |before.timeouts| && before.timeouts[k] == Orders.Encoded(order)
    requires Orders.TimedOut(order, sendFails, before, after, missing, failed)
    ensures Runs(true, s, s') && s'.stock == s.stock && |s'.orders| == |s.orders|
    ensures Represents(s', nos, Answered(after, k, failed), ledger)
    ensures OnlyAbout(nos[i], before, ledger, Answered(after, k, failed), ledger)
    ensures var o, o' := s.orders[i], s'.orders[i];
            && o' == o.(row := o'.row, timeouts := o'.timeouts, backs := o'.backs, backSent := o'.backSent)
            && (o'.backSent <==> o.backSent || (MustClose(o.row) && !failed))
            && s'.orders == s.orders[i := o']
  {
    CountAcknowledged(before.timeouts, k, nos[i]);
    TimedOutShows(s.orders[i], nos[i], ledger, k, order, sendFails, before, after, missing, failed);
    s' := TimeoutRuns(s, i, sendFails);
    StillRepresents(s, nos, before, ledger, i, s', Answered(after, k, failed), ledger);
  }

  // ----- status changes, check-backs and verdicts -----

  ghost predicate DistinctNumbers(orders: seq<Orders.OrderItem>)
  {
    forall j, k :: 0 <= j < k < |orders| ==> orders[j].no != orders[k].no
  }

  lemma StatusChangedShows(o: Order, no: string, ledger: LedgerTable, id: int, status: string, before: Orders.Tables,
                           after: Orders.Tables)
    requires Shows(o, no, before, ledger)
    requires DistinctNumbers(before.orders) && Orders.StatusChanged(id, no, status, before, after, true)
    ensures o.row.Some? && Shows(o.(row := Some(status), unsafeChange := o.unsafeChange || !SafeChange(o, status)), no,
                                 after, ledger)
    ensures OnlyAbout(no, before, ledger, after, ledger)
  {
    var k :| 0 <= k < |before.orders| && Orders.Matches(before.orders[k], id, no);
    assert Orders.Find(before.orders, no) == k;
    assert after.orders == before.orders[k := before.orders[k].(status := status)];
    ChangedOrder(before.orders, k, status);
  }

  /** As long as order numbers are unique, ChangeOrderStatus is the saga's ChangeStatus when it finds the order, and
      changes nothing when it does not. */
  lemma StatusChangeSimulatesSaga(s: State, i: nat, nos: seq<string>, ledger: LedgerTable, id: int, status: string,
                                  before: Orders.Tables, after: Orders.Tables, found: bool)
    returns (s': State)
    requires Represents(s, nos, before, ledger) && i < |nos| && s.orders[i].sent == 0
    requires DistinctNumbers(before.orders) && Orders.StatusChanged(id, nos[i], status, before, after, found)
    ensures Runs(true, s, s') && Represents(s', nos, after, ledger)
    ensures OnlyAbout(nos[i], before, ledger, after, ledger)
    ensures if found
            then s.orders[i].row.Some? && s' == s.(orders := s.orders[i := OtherAct(s.orders[i], ChangeStatus(status))])
            else s' == s
  {
    StartsAt(true, s);
    s' := s;
    if found {
      StatusChangedShows(s.orders[i], nos[i], ledger, id, status, before, after);
      s' := Onward(true, s, s, i, Other(ChangeStatus(status)));
      StillRepresents(s, nos, before, ledger, i, s', after, ledger);
    } else {
      assert after.orders == before.orders;
    }
  }

  /** The broker's queue of "give back" messages after it has applied a verdict to the half message. */
  function Resolved(t: Orders.Tables, half: bool, body: Orders.Body, v: Verdict): Orders.Tables
  {
    if half && v == CommitMessage then t.(backs := t.backs + [body]) else t
  }

  lemma ResolvedShows(o: Order, no: string, t: Orders.Tables, ledger: LedgerTable, body: Orders.Body, v: Verdict)
    requires Shows(o, no, t, ledger) && (v == CommitMessage ==> body.Encoded? && body.item.no == no)
    ensures Shows(Resolve(o, v), no, Resolved(t, o.half, body, v), ledger)
    ensures OnlyAbout(no, t, ledger, Resolved(t, o.half, body, v), ledger)
  {
    if v == CommitMessage {
      CountMore(t.backs, body, no);
    }
  }

  /** The answer that CheckLocalTransaction's contract gives, applied by the broker, is the saga's CheckBack. */
  lemma CheckBackSimulatesSaga(s: State, i: nat, nos: seq<string>, ledger: LedgerTable, body: Orders.Body,
                               t: Orders.Tables)
    returns (s': State)
    requires Represents(s, nos, t, ledger) && i < |nos| && s.orders[i].half && !Running(s.orders[i])
    requires s.orders[i].decodes == body.Encoded? && (body.Encoded? ==> body.item.no == nos[i])
    ensures Runs(true, s, s') && Represents(s', nos, Resolved(t, true, body, Orders.CheckAnswer(body, t)), ledger)
    ensures OnlyAbout(nos[i], t, ledger, Resolved(t, true, body, Orders.CheckAnswer(body, t)), ledger)
    ensures s' == s.(orders := s.orders[i := Act(s.orders[i], Other(CheckBack))])
  {
    StartsAt(true, s);
    s' := Onward(true, s, s, i, Other(CheckBack));
    ResolvedShows(s.orders[i], nos[i], t, ledger, body, Orders.CheckAnswer(body, t));
    StillRepresents(s, nos, t, ledger, i, s', Resolved(t, true, body, Orders.CheckAnswer(body, t)), ledger);
  }

  /** The executor's own verdict, taken by the broker, is the saga's DeliverVerdict. */
  lemma VerdictSimulatesSaga(s: State, i: nat, nos: seq<string>, ledger: LedgerTable, body: Orders.Body,
                             t: Orders.Tables)
    returns (s': State)
    requires Represents(s, nos, t, ledger) && i < |nos| && s.orders[i].pc.Returned?
    requires s.orders[i].pc.verdict == CommitMessage ==> IsFor(body, nos[i])
    ensures var t' := Resolved(t, s.orders[i].half, body, s.orders[i].pc.verdict);
            Runs(true, s, s') && Represents(s', nos, t', ledger) && OnlyAbout(nos[i], t, ledger, t', ledger)
    ensures s' == s.(orders := s.orders[i := Act(s.orders[i], Other(DeliverVerdict))])
  {
    var t' := Resolved(t, s.orders[i].half, body, s.orders[i].pc.verdict);
    StartsAt(true, s);
    s' := Onward(true, s, s, i, Other(DeliverVerdict));
    ResolvedShows(s.orders[i], nos[i], t, ledger, body, s.orders[i].pc.verdict);
    StillRepresents(s, nos, t, ledger, i, s', t', ledger);
  }

  /** A message delivered again, or sent again by the broker. */
  lemma RepeatedTimeoutSimulatesSaga(s: State, i: nat, nos: seq<string>, ledger: LedgerTable, k: nat, t: Orders.Tables)
    returns (s': State)
    requires Represents(s, nos, t, ledger) && i < |nos| && k < |t.timeouts| && IsFor(t.timeouts[k], nos[i])
    ensures var t' := t.(timeouts := t.timeouts + [t.timeouts[k]]);
            Runs(true, s, s') && Represents(s', nos, t', ledger) && OnlyAbout(nos[i], t, ledger, t', ledger)
    ensures s'.stock == s.stock && s'.orders == s.orders[i := s.orders[i].(timeouts := s.orders[i].timeouts + 1)]
  {
    CountAcknowledged(t.timeouts, k, nos[i]);
    CountMore(t.timeouts, t.timeouts[k], nos[i]);
    StartsAt(true, s);
    s' := TimeoutOn(true, s, s, i, DuplicateTimeout);
    StillRepresents(s, nos, t, ledger, i, s', t.(timeouts := t.timeouts + [t.timeouts[k]]), ledger);
  }

  lemma RepeatedBackSimulatesSaga(s: State, i: nat, nos: seq<string>, ledger: LedgerTable, k: nat, t: Orders.Tables)
    returns (s': State)
    requires Represents(s, nos, t, ledger) && i < |nos| && k < |t.backs| && IsFor(t.backs[k], nos[i])
    ensures var t' := t.(backs := t.backs + [t.backs[k]]);
            Runs(true, s, s') && Represents(s', nos, t', ledger) && OnlyAbout(nos[i], t, ledger, t', ledger)
    ensures s'.stock == s.stock && s'.orders == s.orders[i := s.orders[i].(backs := s.orders[i].backs + 1)]
  {
    CountAcknowledged(t.backs, k, nos[i]);
    CountMore(t.backs, t.backs[k], nos[i]);
    StartsAt(true, s);
    s' := Onward(true, s, s, i, Other(DuplicateBack));
    StillRepresents(s, nos, t, ledger, i, s', t.(backs := t.backs + [t.backs[k]]), ledger);
  }

  // ----- the "give back" consumer -----

  function AsMessage(body: Orders.Body): Consumer.Message
  {
    if body.Encoded? then Consumer.OrderNo(body.item.no) else Consumer.Undecodable
  }

  /** A queued "give back" message that the consumer's contract lets it answer with success is the saga's TakeBack, with
      the consumer's stock and ledger. */
  lemma ConsumerSimulatesSaga(s: State, i: nat, nos: seq<string>, ledger: LedgerTable, k: nat, t: Orders.Tables)
    returns (s': State)
    requires Represents(s, nos, t, ledger) && i < |nos| && k < |t.backs|
    requires IsFor(t.backs[k], nos[i])
    requires Consumer.Answer(Consumer.Db(s.stock, ledger), [AsMessage(t.backs[k])]) == ConsumeSuccess
    ensures s.orders[i].backs > 0
    ensures var db := Consumer.Deliver(Consumer.Db(s.stock, ledger), Consumer.Attempt([AsMessage(t.backs[k])], true));
            && Runs(true, s, s') && s'.stock == db.stock
            && Represents(s', nos, t.(backs := Without(t.backs, k)), db.ledger)
            && OnlyAbout(nos[i], t, ledger, t.(backs := Without(t.backs, k)), db.ledger)
    ensures s'.orders == s.orders[i := Act(s.orders[i], Other(TakeBack))]
  {
    var db := Consumer.Deliver(Consumer.Db(s.stock, ledger), Consumer.Attempt([AsMessage(t.backs[k])], true));
    CountAcknowledged(t.backs, k, nos[i]);
    StartsAt(true, s);
    s' := Onward(true, s, s, i, Other(TakeBack));
    StillRepresents(s, nos, t, ledger, i, s', t.(backs := Without(t.backs, k)), db.ledger);
  }

  // ----- what the saga's safety says about the tables -----

  /** A paid order's stock is sold, a closed order's has been given back, and none is sold without an order. */
  ghost predicate TablesAgree(no: string, t: Orders.Tables, ledger: LedgerTable)
  {
    match Orders.StatusOf(t.orders, no)
    case None => no in ledger ==> ledger[no].status.HasBack?
    case Some(status) =>
      && no in ledger
      && ((status == PAID && ledger[no].status.HasSell?) || (status == CLOSED && ledger[no].status.HasBack?))
  }

  /** Order table and stock ledger, kept by two services, agree on every order at rest whose status changes were all
      safe, with the one exception of a sale whose reply was lost and whose Rollback verdict the broker took. */
  lemma RestingTablesAgree(s: State, i: nat, nos: seq<string>, t: Orders.Tables, ledger: LedgerTable)
    requires Reachable(true, s) && Represents(s, nos, t, ledger) && i < |nos|
    requires Quiet(s.orders[i]) && !s.orders[i].unsafeChange
    ensures TablesAgree(nos[i], t, ledger) <==> !Leaked(s.orders[i])
  {
    assert Shows(s.orders[i], nos[i], t, ledger);
    QuietOrdersAreConsistent(s, i);
  }
}
