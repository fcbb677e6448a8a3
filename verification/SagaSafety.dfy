/** What every run of the saga keeps: stock is conserved, and under a timely broker every order
    that has come to rest is consistent with its stock, with the one exception stated exactly. */
module SagaSafety {
  import opened Common
  import opened Quantities
  import opened Saga

  // ----- conservation -----

  /** Stock of product p that the ledger says is sold and not given back. */
  ghost function HeldBy(o: Order, p: int): int
  {
    if IsSold(o) then Total(o.lines, p) else 0
  }

  ghost function Held(orders: seq<Order>, p: int): int
  {
    if orders == [] then 0
    else Held(orders[..|orders| - 1], p) + HeldBy(orders[|orders| - 1], p)
  }

  ghost predicate LinesFine(o: Order, stock: Stock)
  {
    NonNegative(o.lines) && (!o.ledger.None? ==> AllListed(stock, o.lines))
  }

  ghost predicate Conserved(s: State)
  {
    && s.stock.Keys == s.supply.Keys
    && (forall p :: p in s.stock ==> s.stock[p] >= 0)
    && (forall p :: p in s.stock ==> s.stock[p] + Held(s.orders, p) == s.supply[p])
    && (forall i :: 0 <= i < |s.orders| ==> LinesFine(s.orders[i], s.stock))
  }

  /** The ledger of an order in the phases before its sale. */
  ghost predicate Unsold(o: Order)
  {
    o.pc.Starting? || o.pc.Selling? || o.pc.Orphaned? ==> o.ledger.None?
  }

  ghost predicate AllUnsold(s: State) { forall i :: 0 <= i < |s.orders| ==> Unsold(s.orders[i]) }

  lemma {:induction false} HeldUpdate(orders: seq<Order>, i: nat, o: Order, p: int)
    requires i < |orders|
    ensures Held(orders[i := o], p) == Held(orders, p) - HeldBy(orders[i], p) + HeldBy(o, p)
  {
    var n := |orders| - 1;
    if i == n {
      assert orders[i := o][..n] == orders[..n];
    } else {
      assert orders[i := o][..n] == orders[..n][i := o];
      HeldUpdate(orders[..n], i, o, p);
    }
  }

  lemma {:induction false} HeldAtLeast(orders: seq<Order>, i: nat, p: int)
    requires i < |orders| && forall j :: 0 <= j < |orders| ==> NonNegative(orders[j].lines)
    ensures Held(orders, p) >= HeldBy(orders[i], p) >= 0
  {
    var n := |orders| - 1;
    TotalNonNegative(orders[n].lines, p);
    TotalNonNegative(orders[i].lines, p);
    if i < n {
      HeldAtLeast(orders[..n], i, p);
    } else if n > 0 {
      HeldAtLeast(orders[..n], n - 1, p);
    }
  }

  lemma SaleKeepsSign(stock: Stock, lines: seq<Line>, p: int)
    requires NonNegative(lines) && Sellable(stock, lines) && p in stock && stock[p] >= 0
    ensures stock[p] - Total(lines, p) >= 0
  {
    SellableMeansTotals(stock, lines);
    if i :| 0 <= i < |lines| && lines[i].product == p {
    } else {
      TotalAbsent(lines, p);
    }
  }

  /** What a step does to the ledger row: a sale writes it, a first return flips it. */
  ghost predicate LedgerMoved(o: Order, a: Action, o': Order)
  {
    && o'.ledger == (if Sells(a) then Some(HasSell) else if Returns(o, a) then Some(HasBack) else o.ledger)
    && o'.lines == (if a.Executor? && a.es.ReadCart? then a.es.lines else o.lines)
  }

  lemma ExecutorMovesLedger(o: Order, e: ExecutorStep)
    requires ExecutorReady(o, e)
    ensures LedgerMoved(o, Executor(e), ExecutorAct(o, e))
  {
  }

  lemma TimeoutMovesLedger(o: Order, t: TimeoutStep)
    requires TimeoutReady(o, t)
    ensures LedgerMoved(o, Timeout(t), TimeoutAct(o, t))
  {
  }

  lemma OtherMovesLedger(o: Order, t: OtherStep)
    requires OtherReady(o, t)
    ensures LedgerMoved(o, Other(t), OtherAct(o, t))
  {
  }

  lemma ActMovesLedger(o: Order, a: Action)
    requires Ready(o, a)
    ensures LedgerMoved(o, a, Act(o, a))
  {
    match a
    case Executor(e) => ExecutorMovesLedger(o, e);
    case Timeout(t) => TimeoutMovesLedger(o, t);
    case Other(t) => OtherMovesLedger(o, t);
  }

  lemma ExecutorKeepsUnsold(o: Order, e: ExecutorStep)
    requires Unsold(o) && ExecutorReady(o, e)
    ensures Unsold(ExecutorAct(o, e))
    ensures Sells(Executor(e)) || e.ReadCart? ==> o.ledger.None?
  {
  }

  lemma OthersKeepUnsold(o: Order, a: Action)
    requires Unsold(o) && Ready(o, a) && !a.Executor?
    ensures Unsold(Act(o, a))
  {
    ActMovesLedger(o, a);
    assert a.Timeout? ==> TimeoutAct(o, a.ts).pc == o.pc;
    assert a.Other? ==> OtherAct(o, a.os).pc == o.pc || OtherAct(o, a.os).pc.Stopped?;
  }

  lemma ActKeepsUnsold(o: Order, a: Action)
    requires Unsold(o) && Ready(o, a)
    ensures Unsold(Act(o, a))
    ensures Sells(a) || (a.Executor? && a.es.ReadCart?) ==> o.ledger.None?
  {
    match a
    case Executor(e) => ExecutorKeepsUnsold(o, e);
    case _ => OthersKeepUnsold(o, a);
  }

  /** What a step at one order does to one product's stock, in terms of its ledger. */
  lemma LedgerBalancesStock(o: Order, stock: Stock, a: Action, o': Order, p: int)
    requires Can(false, o, stock, a) && LinesFine(o, stock) && LedgerMoved(o, a, o')
    requires Sells(a) || (a.Executor? && a.es.ReadCart?) ==> o.ledger.None?
    requires p in stock && stock[p] >= 0
    ensures Moved(o, stock, a).Keys == stock.Keys && Moved(o, stock, a)[p] >= 0
    ensures Moved(o, stock, a)[p] - stock[p] == HeldBy(o, p) - HeldBy(o', p)
  {
    TotalNonNegative(o.lines, p);
    if Sells(a) {
      SaleKeepsSign(stock, o.lines, p);
    }
  }

  lemma LedgerKeepsLines(o: Order, stock: Stock, a: Action, o': Order)
    requires Can(false, o, stock, a) && LinesFine(o, stock) && LedgerMoved(o, a, o')
    requires a.Executor? && a.es.ReadCart? ==> o.ledger.None?
    ensures LinesFine(o', stock)
  {
    if Sells(a) {
      forall j | 0 <= j < |o.lines| ensures o.lines[j].product in stock {
        assert Enough(stock, o.lines, j);
      }
    }
  }

  lemma AtConserves(s: State, i: nat, a: Action)
    requires Conserved(s) && AllUnsold(s) && i < |s.orders| && Can(false, s.orders[i], s.stock, a)
    ensures var s' := Apply(false, s, At(i, a)); Conserved(s') && AllUnsold(s')
  {
    var s', o := Apply(false, s, At(i, a)), s.orders[i];
    ActMovesLedger(o, a);
    ActKeepsUnsold(o, a);
    LedgerKeepsLines(o, s.stock, a, Act(o, a));
    forall p | p in s.stock
      ensures p in s'.stock && s'.stock[p] >= 0 && s'.stock[p] + Held(s'.orders, p) == s'.supply[p]
    {
      LedgerBalancesStock(o, s.stock, a, Act(o, a), p);
      HeldUpdate(s.orders, i, Act(o, a), p);
    }
    assert s'.stock.Keys == s.stock.Keys;
  }

  lemma StepConserves(timely: bool, s: State, e: Event)
    requires Conserved(s) && AllUnsold(s) && Enabled(timely, s, e)
    ensures Conserved(Apply(timely, s, e)) && AllUnsold(Apply(timely, s, e))
  {
    var s' := Apply(timely, s, e);
    match e
    case Create(decodes) =>
      assert s'.orders[..|s.orders|] == s.orders;
    case Restock(p, n) =>
    case At(i, a) =>
      AtConserves(s, i, a);
  }

  lemma {:induction false} RunConserves(timely: bool, s0: State, es: seq<Event>)
    requires Init(s0) && Exec(timely, s0, es).Some?
    ensures Conserved(Exec(timely, s0, es).value) && AllUnsold(Exec(timely, s0, es).value)
  {
    if es != [] {
      var init := es[..|es| - 1];
      RunConserves(timely, s0, init);
      StepConserves(timely, Exec(timely, s0, init).value, es[|es| - 1]);
    }
  }

  /** Over every run, with any failures, crashes, duplicates and broker timing: for each product the
      stock plus what the ledger still holds is what was ever supplied, and stock is not negative. */
  lemma StockIsConserved(timely: bool, s: State)
    requires Reachable(timely, s)
    ensures Conserved(s)
  {
    var s0, es :| Init(s0) && Exec(timely, s0, es) == Some(s);
    RunConserves(timely, s0, es);
  }

  /** So a 32-bit stock column never overflows as long as the supply itself fits. */
  lemma StockStaysInRange(timely: bool, s: State, p: int, max: int)
    requires Reachable(timely, s) && p in s.supply && s.supply[p] <= max
    ensures p in s.stock && 0 <= s.stock[p] <= max
  {
    StockIsConserved(timely, s);
    if s.orders != [] {
      HeldAtLeast(s.orders, 0, p);
    }
  }

  /** Over any further run a ledger row is never un-returned, a sold one never forgotten, and its lines never change:
      compensation happens at most once. */
  lemma {:induction false} ReturnsAreFinal(timely: bool, s: State, es: seq<Event>, i: nat)
    requires Reachable(timely, s) && Exec(timely, s, es).Some? && i < |s.orders| && !s.orders[i].ledger.None?
    ensures var s' := Exec(timely, s, es).value;
            && i < |s'.orders| && s'.orders[i].lines == s.orders[i].lines
            && !s'.orders[i].ledger.None?
            && (IsBack(s.orders[i]) ==> IsBack(s'.orders[i]))
  {
    if es != [] {
      var init, e := es[..|es| - 1], es[|es| - 1];
      ReturnsAreFinal(timely, s, init, i);
      var m := Exec(timely, s, init).value;
      ReachableExtends(timely, s, init, m);
      ReachableIsUnsold(timely, m);
      if e.At? && e.i == i {
        ActMovesLedger(m.orders[i], e.action);
        ActKeepsUnsold(m.orders[i], e.action);
      }
    }
  }

  lemma ReachableIsUnsold(timely: bool, s: State)
    requires Reachable(timely, s)
    ensures AllUnsold(s)
  {
    var s0, es :| Init(s0) && Exec(timely, s0, es) == Some(s);
    RunConserves(timely, s0, es);
  }

  // ----- consistency of one order under a timely broker -----

  /** The broker dropped the half message on the executor's word although the sale had committed. */
  predicate Leaked(o: Order) { o.replyLost && o.rolledBack }

  ghost predicate ExecutorPart(o: Order)
  {
    && Unsold(o)
    && (Running(o) ==> o.half && o.row.None? && !o.replyLost)
    && (o.rolledBack ==> o.pc.Stopped?)
    && (o.pc.Saving? || o.pc.Sending? || o.pc.Committing? ==> IsSold(o))
    && (o.pc == Returned(CommitMessage) ==> o.ledger.Some? && o.row.None? && !o.replyLost)
    && (Running(o) && !o.pc.Committing? ==> o.timeouts == 0)
    && (o.pc.Committing? ==> o.timeouts > 0)
    && o.pc != Returned(Unknown)
    && (o.pc == Returned(RollbackMessage) && o.row.None? ==> o.ledger.None? || o.replyLost)
    && (!o.decodes ==> o.ledger.None? && o.backs == 0 && o.timeouts == 0
                       && (o.pc.Starting? || o.pc == Returned(RollbackMessage) || o.pc.Stopped?))
  }

  ghost predicate BrokerPart(o: Order)
  {
    && (o.half ==> !o.rolledBack)
    && (o.half && o.row.None? ==> o.backs == 0 && !IsBack(o))
    && (o.row.None? ==> o.closing == 0 && o.sent == 0 && !o.backSent && !o.unsafeChange)
    && (o.row.None? && IsSold(o) && !Running(o) ==> o.half || o.backs > 0 || Leaked(o))
    && (o.replyLost ==> !o.ledger.None? && o.row.None? && o.timeouts == 0)
    && (Leaked(o) ==> IsSold(o) && o.backs == 0 && !o.half)
    && (o.row.Some? ==> !o.ledger.None?)
    && (o.row.Some? && !o.backSent ==> IsSold(o) && o.backs == 0)
    && (o.backSent ==> IsBack(o) || o.backs > 0)
    && (o.sent > 0 ==> o.backSent)
  }

  /** A paid order has had no timeout handler act on it; any other one is still to be handled, or
      is closed with its stock given back or on its way. */
  ghost predicate StatusPart(o: Order)
  {
    o.row.Some? && !o.unsafeChange ==>
      if o.row.value == PAID then o.closing == 0 && !o.backSent
      else Pending(o) > 0 || (o.row.value == CLOSED && o.backSent)
  }

  ghost predicate Tidy(o: Order) { ExecutorPart(o) && BrokerPart(o) && StatusPart(o) }

  lemma ExecutorKeepsItsPart(o: Order, e: ExecutorStep)
    requires Tidy(o) && ExecutorReady(o, e)
    ensures ExecutorPart(ExecutorAct(o, e))
  {
  }

  lemma ExecutorKeepsBrokerPart(o: Order, e: ExecutorStep)
    requires Tidy(o) && ExecutorReady(o, e)
    ensures BrokerPart(ExecutorAct(o, e))
  {
  }

  lemma ExecutorKeepsTidy(o: Order, e: ExecutorStep)
    requires Tidy(o) && ExecutorReady(o, e)
    ensures Tidy(ExecutorAct(o, e))
  {
    ExecutorKeepsItsPart(o, e);
    ExecutorKeepsBrokerPart(o, e);
  }

  lemma TimeoutKeepsTidy(o: Order, t: TimeoutStep)
    requires Tidy(o) && TimeoutReady(o, t) && (t.TakeTimeout? ==> !Running(o))
    ensures Tidy(TimeoutAct(o, t))
  {
  }

  lemma OtherKeepsTidy(o: Order, t: OtherStep)
    requires Tidy(o) && OtherReady(o, t) && (t.CheckBack? ==> !Running(o))
    ensures Tidy(OtherAct(o, t))
  {
  }

  lemma ActKeepsTidy(o: Order, stock: Stock, a: Action)
    requires Tidy(o) && Can(true, o, stock, a)
    ensures Tidy(Act(o, a))
  {
    match a
    case Executor(e) => ExecutorKeepsTidy(o, e);
    case Timeout(t) => TimeoutKeepsTidy(o, t);
    case Other(t) => OtherKeepsTidy(o, t);
  }

  ghost predicate AllTidy(s: State) { forall i :: 0 <= i < |s.orders| ==> Tidy(s.orders[i]) }

  lemma {:induction false} RunKeepsTidy(s0: State, es: seq<Event>)
    requires Init(s0) && Exec(true, s0, es).Some?
    ensures AllTidy(Exec(true, s0, es).value)
  {
    if es != [] {
      var init, e := es[..|es| - 1], es[|es| - 1];
      RunKeepsTidy(s0, init);
      var m := Exec(true, s0, init).value;
      if e.At? {
        ActKeepsTidy(m.orders[e.i], m.stock, e.action);
      }
    }
  }

  lemma ReachableIsTidy(s: State, i: nat)
    requires Reachable(true, s) && i < |s.orders|
    ensures Tidy(s.orders[i])
  {
    var s0, es :| Init(s0) && Exec(true, s0, es) == Some(s);
    RunKeepsTidy(s0, es);
  }

  /** Nothing is left to do for the order: no executor, no handler, no message of any kind. */
  predicate Quiet(o: Order)
  {
    o.pc.Stopped? && !o.half && Pending(o) == 0 && o.backs == 0
  }

  /** A paid order holds its stock; a closed or missing one holds none. */
  predicate Consistent(o: Order)
  {
    match o.row
    case None => !IsSold(o)
    case Some(status) => (status == PAID && IsSold(o)) || (status == CLOSED && IsBack(o))
  }

  /** The saga's main promise, with its exact exception. In every reachable state, an order that has
      come to rest and whose status changes were all safe is consistent if and only if it is not
      the case that its Sell call failed after committing and the broker took the executor's own
      Rollback verdict for it. */
  lemma QuietOrdersAreConsistent(s: State, i: nat)
    requires Reachable(true, s) && i < |s.orders|
    requires Quiet(s.orders[i]) && !s.orders[i].unsafeChange
    ensures Consistent(s.orders[i]) <==> !Leaked(s.orders[i])
  {
    ReachableIsTidy(s, i);
  }

  /** A committed order that is neither paid nor closed still has a timeout message queued or being
      handled: the message is sent before the order commits. */
  lemma NoUnpaidOrderIsForgotten(s: State, i: nat)
    requires Reachable(true, s) && i < |s.orders| && !s.orders[i].unsafeChange
    requires s.orders[i].row.Some? && s.orders[i].row.value !in {PAID, CLOSED}
    ensures Pending(s.orders[i]) > 0
  {
    ReachableIsTidy(s, i);
  }

  /** A paid order's stock is held and nothing on its way will give it back. */
  lemma PaidOrdersKeepTheirStock(s: State, i: nat)
    requires Reachable(true, s) && i < |s.orders| && !s.orders[i].unsafeChange
    requires s.orders[i].row == Some(PAID)
    ensures IsSold(s.orders[i]) && s.orders[i].backs == 0
    ensures s.orders[i].closing == 0 && s.orders[i].sent == 0
  {
    ReachableIsTidy(s, i);
  }

  /** What the paid orders took of product p. */
  ghost function Paid(orders: seq<Order>, p: int): int
  {
    if orders == [] then 0
    else
      var last := orders[|orders| - 1];
      Paid(orders[..|orders| - 1], p) + if last.row == Some(PAID) then Total(last.lines, p) else 0
  }

  lemma {:induction false} HeldIsPaid(orders: seq<Order>, p: int)
    requires forall i :: 0 <= i < |orders| ==> (IsSold(orders[i]) <==> orders[i].row == Some(PAID))
    ensures Held(orders, p) == Paid(orders, p)
  {
    if orders != [] {
      HeldIsPaid(orders[..|orders| - 1], p);
    }
  }

  /** When the whole system is at rest, the stock is exactly the supply less the paid orders. */
  lemma RestingStockIsSupplyLessPaid(s: State, p: int)
    requires Reachable(true, s) && p in s.supply
    requires forall i :: 0 <= i < |s.orders| ==>
               Quiet(s.orders[i]) && !s.orders[i].unsafeChange && !Leaked(s.orders[i])
    ensures p in s.stock && s.stock[p] == s.supply[p] - Paid(s.orders, p)
  {
    StockIsConserved(true, s);
    forall i | 0 <= i < |s.orders|
      ensures IsSold(s.orders[i]) <==> s.orders[i].row == Some(PAID)
    {
      QuietOrdersAreConsistent(s, i);
    }
    HeldIsPaid(s.orders, p);
  }
}
