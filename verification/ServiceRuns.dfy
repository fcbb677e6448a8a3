/** What holds in every world that the services and the broker reach. */
module ServiceRuns {
  import opened Common
  import opened Quantities
  import opened Saga
  import opened SagaRefinement
  import opened SagaSafety
  import opened Services
  import Consumer = BackStockConsumer
  import Orders = OrderService

  /** Whatever order calls, verdicts, check-backs, timeouts, status changes, deliveries, repeats and crashes between
      handlers come in: tables, queues, ledger and stock are those of a state the saga reaches under a timely broker. */
  lemma EveryRunIsASagaRun(w: World)
    requires Reached(w)
    ensures exists s :: Behind(w, s)
  {
    var worlds, es :| IsRun(worlds, es) && worlds[|es|] == w;
    var s := RunsAreBehind(worlds, es);
  }

  /** Nothing is under way for the order: its half message is resolved, and no message names it. */
  predicate AtRest(w: World, i: nat)
    requires i < |w.sent|
  {
    && w.sent[i].phase == Gone && !w.sent[i].half
    && CountFor(w.t.timeouts, w.sent[i].no) == 0 && CountFor(w.t.backs, w.sent[i].no) == 0
  }

  /** From empty tables on, the order table and the stock ledger agree on every order at rest whose status changes were
      safe, with one exception: its sale's reply was lost and the broker took its executor's Rollback verdict. */
  lemma ServicesAgreeAtRest(w: World, i: nat)
    requires Reached(w) && i < |w.sent| && AtRest(w, i) && !w.sent[i].unsafeChange
    ensures TablesAgree(w.sent[i].no, w.t, w.ledger) <==> !(w.sent[i].replyLost && w.sent[i].rolledBack)
  {
    EveryRunIsASagaRun(w);
    var s :| Behind(w, s);
    assert Tracks(w.sent[i], s.orders[i]) && Shows(s.orders[i], Numbers(w.sent)[i], w.t, w.ledger);
    RestingTablesAgree(s, i, Numbers(w.sent), w.t, w.ledger);
  }

  /** A stored order that is neither paid nor closed has a timeout message in the queue. */
  lemma UnpaidOrdersHaveATimeout(w: World, i: nat)
    requires Reached(w) && i < |w.sent| && !w.sent[i].unsafeChange
    requires Orders.StatusOf(w.t.orders, w.sent[i].no).Some?
    requires Orders.StatusOf(w.t.orders, w.sent[i].no).value !in {PAID, CLOSED}
    ensures CountFor(w.t.timeouts, w.sent[i].no) > 0
  {
    EveryRunIsASagaRun(w);
    var s :| Behind(w, s);
    assert Tracks(w.sent[i], s.orders[i]) && Shows(s.orders[i], Numbers(w.sent)[i], w.t, w.ledger);
    NoUnpaidOrderIsForgotten(s, i);
  }

  /** Every order row, message and ledger entry belongs to a half message, stock is never negative, and no delivery asks
      to be repeated. */
  lemma NothingIsStray(w: World, no: string)
    requires Reached(w)
    ensures forall p :: p in w.stock ==> w.stock[p] >= 0
    ensures no !in Numbers(w.sent) ==> Unmentioned(no, w.t, w.ledger)
    ensures forall i: nat, k: nat :: QueuedBack(w, i, k) ==>
              Consumer.Answer(Consumer.Db(w.stock, w.ledger), [AsMessage(w.t.backs[k])]) == ConsumeSuccess
  {
    EveryRunIsASagaRun(w);
    var s :| Behind(w, s);
    StockIsConserved(true, s);
    forall i: nat, k: nat | QueuedBack(w, i, k)
      ensures Consumer.Answer(Consumer.Db(w.stock, w.ledger), [AsMessage(w.t.backs[k])]) == ConsumeSuccess
    {
      DeliveriesSucceed(w, s, i, k);
    }
  }
}
