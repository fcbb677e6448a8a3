/** How far the saga's consistency reaches: each condition the safety theorems put on the
    environment is needed wherever it applies, and for status changes the condition is exact. */
module SagaLimits {
  import opened Common
  import opened Quantities
  import opened Saga
  import opened SagaSafety

  // ----- status changes: SafeChange is exactly the right guard -----

  /** An order that must end up inconsistent: paid although its stock is on its way back, or in a
      state that no pending timeout will look at and that does not match its stock. */
  ghost predicate Doomed(o: Order)
  {
    && o.row.Some? && o.sent == 0
    && (if o.row.value == PAID then o.backSent
        else Pending(o) == 0 && (o.row.value == CLOSED ==> !o.backSent))
  }

  /** One step towards rest that leaves a doomed order doomed. */
  function CalmStep(o: Order): Action
    requires !Quiet(o) && o.sent == 0 && !Running(o)
    ensures Ready(o, CalmStep(o))
  {
    if o.closing > 0 then Timeout(CrashClosing)
    else if o.pc.Returned? then Other(DeliverVerdict)
    else if o.half then Other(CheckBack)
    else if o.timeouts > 0 then Timeout(TakeTimeout)
    else Other(TakeBack)
  }

  function CalmWork(o: Order): nat
  {
    2 * o.closing + o.timeouts + o.backs + (if o.half then 2 else 0) + if o.pc.Returned? then 1 else 0
  }

  lemma CalmStepKeepsDoom(o: Order)
    requires Doomed(o) && Tidy(o) && !Quiet(o)
    ensures !Running(o)
    ensures var o' := Act(o, CalmStep(o)); Doomed(o') && CalmWork(o') < CalmWork(o)
  {
  }

  ghost predicate EndsInconsistent(s: State, i: nat, es: seq<Event>)
  {
    && Exec(true, s, es).Some?
    && i < |Exec(true, s, es).value.orders|
    && Quiet(Exec(true, s, es).value.orders[i])
    && !Consistent(Exec(true, s, es).value.orders[i])
  }

  lemma Step(s: State, i: nat, a: Action) returns (m: State)
    requires Reachable(true, s) && i < |s.orders| && Can(true, s.orders[i], s.stock, a)
    ensures Exec(true, s, [At(i, a)]) == Some(m) && Reachable(true, m)
    ensures m.orders == s.orders[i := Act(s.orders[i], a)]
  {
    var e := At(i, a);
    m := Apply(true, s, e);
    assert Exec(true, s, []) == Some(s);
    ExecSnoc(true, s, [], e);
    assert [] + [e] == [e];
    ReachableExtends(true, s, [e], m);
  }

  lemma {:induction false} DoomedEndsInconsistent(s: State, i: nat) returns (es: seq<Event>)
    requires Reachable(true, s) && i < |s.orders| && Doomed(s.orders[i])
    ensures EndsInconsistent(s, i, es)
    decreases CalmWork(s.orders[i])
  {
    var o := s.orders[i];
    ReachableIsTidy(s, i);
    if Quiet(o) {
      es := [];
    } else {
      StockIsConserved(true, s);
      assert LinesFine(o, s.stock);
      CalmStepKeepsDoom(o);
      var m := Step(s, i, CalmStep(o));
      var rest := DoomedEndsInconsistent(m, i);
      ExecConcat(true, s, [At(i, CalmStep(o))], rest);
      es := [At(i, CalmStep(o))] + rest;
    }
  }

  /** A reachable state from which one event leads to a doomed order ends badly. */
  lemma DoomedNext(s: State, i: nat, a: Action) returns (es: seq<Event>)
    requires Reachable(true, s) && i < |s.orders| && Can(true, s.orders[i], s.stock, a)
    requires Doomed(Act(s.orders[i], a))
    ensures |es| > 0 && es[0] == At(i, a) && EndsInconsistent(s, i, es)
  {
    var m := Step(s, i, a);
    var rest := DoomedEndsInconsistent(m, i);
    ExecConcat(true, s, [At(i, a)], rest);
    es := [At(i, a)] + rest;
  }

  /** In a reachable state whose earlier changes were safe, a change that is not safe can leave the
      order at rest and inconsistent. Together with QuietOrdersAreConsistent: SafeChange is
      exactly the guard under which a status change is harmless. */
  lemma UnsafeChangeCanBreak(s: State, i: nat, status: string) returns (es: seq<Event>)
    requires Reachable(true, s) && i < |s.orders| && !s.orders[i].unsafeChange
    requires Ready(s.orders[i], Other(ChangeStatus(status))) && !SafeChange(s.orders[i], status)
    ensures |es| > 0 && es[0] == At(i, Other(ChangeStatus(status)))
    ensures EndsInconsistent(s, i, es)
  {
    var o, a := s.orders[i], Other(ChangeStatus(status));
    if status == PAID && !o.backSent {
      // a handler has read the order as unpaid; its message can still leave while the send reports a failure
      var m := Step(s, i, a);
      var rest := DoomedNext(m, i, Timeout(CloseSendFails(true)));
      ExecConcat(true, s, [At(i, a)], rest);
      es := [At(i, a)] + rest;
    } else {
      ReachableIsTidy(s, i);
      es := DoomedNext(s, i, a);
    }
  }

  // ----- broker timing -----

  /** The executor can still take stock; `cart` is what it finds if it has not read the cart yet. */
  ghost predicate MaySell(o: Order, stock: Stock, cart: seq<Line>)
  {
    || (o.pc.Starting? && o.decodes && NonNegative(cart) && Sellable(stock, cart))
    || ((o.pc.Selling? || o.pc.Orphaned?) && Sellable(stock, o.lines))
  }

  /** The executor has taken stock and can still commit. */
  predicate MayCommit(o: Order)
  {
    (o.pc.Saving? && o.lines != []) || o.pc.Sending? || o.pc.Committing?
  }

  /** All queued timeout messages taken one after another, each just acknowledged. */
  lemma {:induction false} TakeAll(timely: bool, s: State, m: State, i: nat) returns (s': State)
    requires Runs(timely, s, m) && i < |m.orders| && !MustClose(m.orders[i].row)
    requires timely ==> !Running(m.orders[i])
    ensures Runs(timely, s, s') && s'.orders == m.orders[i := m.orders[i].(timeouts := 0)]
    decreases m.orders[i].timeouts
  {
    if m.orders[i].timeouts == 0 {
      s' := m;
      assert m.orders[i := m.orders[i].(timeouts := 0)] == m.orders;
    } else {
      s' := TimeoutOn(timely, s, m, i, TakeTimeout);
      s' := TakeAll(timely, s, s', i);
    }
  }

  /** The executor goes on to its commit. */
  lemma OnToCommit(s: State, m: State, i: nat) returns (s': State)
    requires Runs(true, s, m) && i < |m.orders| && MayCommit(m.orders[i])
    ensures Runs(true, s, s') && s'.stock == m.stock && |s'.orders| == |m.orders|
    ensures s'.orders[i] == m.orders[i].(pc := Committing, timeouts := s'.orders[i].timeouts)
  {
    s' := m;
    if s'.orders[i].pc.Saving? {
      s' := ExecutorOn(true, s, s', i, SaveOk);
    }
    if s'.orders[i].pc.Sending? {
      s' := ExecutorOn(true, s, s', i, SendOk);
    }
  }

  lemma OnFromSelling(s: State, m: State, i: nat) returns (s': State)
    requires Runs(true, s, m) && i < |m.orders| && m.orders[i].pc.Selling? && Sellable(m.stock, m.orders[i].lines)
    requires !m.orders[i].half
    ensures Runs(true, s, s') && |s'.orders| == |m.orders|
    ensures s'.orders[i] == m.orders[i].(pc := Stopped, ledger := Some(HasSell))
  {
    s' := ExecutorOn(true, s, m, i, SellOk);
    s' := ExecutorOn(true, s, s', i, SaveFails);
    s' := Onward(true, s, s', i, Other(DeliverVerdict));
  }

  /** The executor reads its cart if it has not, sells, and then fails to write the order. */
  lemma OnToFailedWrite(s: State, m: State, i: nat, cart: seq<Line>) returns (s': State)
    requires Runs(true, s, m) && i < |m.orders| && MaySell(m.orders[i], m.stock, cart) && !m.orders[i].half
    ensures Runs(true, s, s') && |s'.orders| == |m.orders|
    ensures s'.orders[i] == m.orders[i].(pc := Stopped, lines := s'.orders[i].lines, ledger := Some(HasSell))
  {
    if m.orders[i].pc.Orphaned? {
      s' := ExecutorOn(true, s, m, i, OrphanSells);
    } else if m.orders[i].pc.Starting? {
      s' := ExecutorOn(true, s, m, i, ReadCart(cart));
      s' := OnFromSelling(s, s', i);
    } else {
      s' := OnFromSelling(s, m, i);
    }
  }

  /** The executor commits, the order is paid at once, and everything queued is delivered. */
  lemma OnToPaid(s: State, m: State, i: nat) returns (s': State)
    requires Runs(true, s, m) && i < |m.orders| && MayCommit(m.orders[i])
    requires !m.orders[i].half && m.orders[i].sent == 0
    ensures Runs(true, s, s') && |s'.orders| == |m.orders|
    ensures var o := s'.orders[i];
            o == m.orders[i].(pc := Stopped, row := Some(PAID), timeouts := 0, unsafeChange := o.unsafeChange)
    ensures s'.orders[i].unsafeChange ==> m.orders[i].unsafeChange || m.orders[i].closing > 0 || m.orders[i].backSent
  {
    s' := OnToCommit(s, m, i);
    s' := ExecutorOn(true, s, s', i, Commit);
    s' := Onward(true, s, s', i, Other(ChangeStatus(PAID)));
    s' := Onward(true, s, s', i, Other(DeliverVerdict));
    s' := TakeAll(true, s, s', i);
  }

  /** A check-back that comes too early, and its "give back" message consumed at once. */
  lemma EarlyGiveBack(s: State, i: nat) returns (m: State)
    requires Reachable(true, s) && i < |s.orders| && Running(s.orders[i]) && s.orders[i].decodes
    ensures Enabled(false, s, At(i, Other(CheckBack)))
    ensures Runs(true, Apply(false, s, At(i, Other(CheckBack))), m) && |m.orders| == |s.orders|
    ensures s.orders[i].ledger.None? ==> m.stock == s.stock
    ensures m.orders[i] == s.orders[i].(half := false, backs := 0,
                             ledger := if IsSold(s.orders[i]) then Some(HasBack) else s.orders[i].ledger)
  {
    ReachableIsTidy(s, i);
    StockIsConserved(true, s);
    assert LinesFine(s.orders[i], s.stock);
    var early := Apply(false, s, At(i, Other(CheckBack)));
    StartsAt(true, early);
    m := Onward(true, early, early, i, Other(TakeBack));
  }

  /** If the broker checks back while an executor is running that can still sell or commit, the order can end at rest
      and inconsistent though all else keeps to the rules. This holds in every reachable state, so the
      condition on check-backs is needed wherever it bites. */
  lemma EarlyCheckBackBreaks(s: State, i: nat, cart: seq<Line>) returns (s': State)
    requires Reachable(true, s) && i < |s.orders|
    requires MaySell(s.orders[i], s.stock, cart) || MayCommit(s.orders[i])
    ensures Enabled(false, s, At(i, Other(CheckBack)))
    ensures Runs(true, Apply(false, s, At(i, Other(CheckBack))), s') && |s'.orders| == |s.orders|
    ensures Quiet(s'.orders[i]) && !Consistent(s'.orders[i])
    ensures !s'.orders[i].unsafeChange && !Leaked(s'.orders[i])
  {
    ReachableIsTidy(s, i);
    var early := Apply(false, s, At(i, Other(CheckBack)));
    s' := EarlyGiveBack(s, i);
    if MayCommit(s.orders[i]) {
      s' := OnToPaid(early, s', i);
    } else {
      s' := OnToFailedWrite(early, s', i, cart);
    }
  }

  /** The rest of a run after a commit that all timeout messages have overtaken. */
  lemma OnToForgotten(s: State, m: State, i: nat) returns (s': State)
    requires Runs(true, s, m) && i < |m.orders| && m.orders[i].pc.Committing? && m.orders[i].half
    ensures Runs(true, s, s') && |s'.orders| == |m.orders|
    ensures s'.orders[i] == m.orders[i].(pc := Stopped, row := Some(UNPAID), half := false, rolledBack := true)
  {
    s' := ExecutorOn(true, s, m, i, Commit);
    s' := Onward(true, s, s', i, Other(DeliverVerdict));
  }

  /** If timeout messages may overtake the commit, an unpaid order can be forgotten. This holds in every reachable state
      whose executor can still commit: it goes on to its commit, the queued messages overtake it, and after that the
      order comes to rest unpaid. */
  lemma EarlyTimeoutForgets(s: State, i: nat) returns (s1: State, s2: State, s3: State)
    requires Reachable(true, s) && i < |s.orders| && MayCommit(s.orders[i])
    ensures Runs(true, s, s1) && |s1.orders| == |s.orders| && s1.orders[i].pc.Committing?
    ensures Runs(false, s1, s2) && s2.orders == s1.orders[i := s1.orders[i].(timeouts := 0)]
    ensures Runs(true, s2, s3) && |s3.orders| == |s.orders|
    ensures Quiet(s3.orders[i]) && s3.orders[i].row == Some(UNPAID) && IsSold(s3.orders[i])
    ensures !s3.orders[i].unsafeChange && !Leaked(s3.orders[i])
  {
    ReachableIsTidy(s, i);
    StartsAt(true, s);
    s1 := OnToCommit(s, s, i);
    StartsAt(false, s1);
    s2 := TakeAll(false, s1, s1, i);
    StartsAt(true, s2);
    s3 := OnToForgotten(s2, s2, i);
  }

  // ----- what goes wrong otherwise -----

  /** One product, five pieces in stock. */
  const SHOP: State := State(map[1 := 5], map[1 := 5], [])

  lemma JustCreated() returns (s: State)
    ensures Runs(true, SHOP, s) && s.stock == map[1 := 5] && s.orders == [New(true)]
  {
    StartsAt(true, SHOP);
    ExecSnoc(true, SHOP, [], Create(true));
    s := Apply(true, SHOP, Create(true));
  }

  /** One order for one piece of product 1, up to just before its Sell call. */
  lemma AboutToSell() returns (s: State)
    ensures Runs(true, SHOP, s) && s.stock == map[1 := 5]
    ensures s.orders == [New(true).(lines := [Line(1, 1)], pc := Selling)]
    ensures Sellable(s.stock, [Line(1, 1)]) && Subtract(s.stock, [Line(1, 1)]) == map[1 := 4]
  {
    s := JustCreated();
    s := ExecutorOn(true, SHOP, s, 0, ReadCart([Line(1, 1)]));
    TotalStep([Line(1, 1)], 0, 1);
    assert [Line(1, 1)][..1] == [Line(1, 1)];
  }

  lemma Opened()
    ensures Reachable(true, SHOP)
  {
    assert Init(SHOP) && Exec(true, SHOP, []) == Some(SHOP);
  }

  /** The exception in QuietOrdersAreConsistent does happen: a Sell reply lost after the sale
      committed leaves a piece sold for an order that does not exist. */
  lemma LostReplyLosesStock() returns (s: State)
    ensures Reachable(true, s) && |s.orders| == 1 && Quiet(s.orders[0]) && !s.orders[0].unsafeChange
    ensures s.orders[0].row.None? && s.stock == map[1 := 4]
  {
    s := AboutToSell();
    s := ExecutorOn(true, SHOP, s, 0, SellReplyLost);
    s := Onward(true, SHOP, s, 0, Other(DeliverVerdict));
    Opened();
    RunsReach(true, SHOP, s);
  }

  lemma JustCommitted() returns (s: State)
    ensures Runs(true, SHOP, s)
    ensures s.orders == [New(true).(lines := [Line(1, 1)], pc := Returned(RollbackMessage), ledger := Some(HasSell),
                                    timeouts := 1, row := Some(UNPAID))]
  {
    s := AboutToSell();
    s := ExecutorOn(true, SHOP, s, 0, SellOk);
    s := ExecutorOn(true, SHOP, s, 0, SaveOk);
    s := ExecutorOn(true, SHOP, s, 0, SendOk);
    s := ExecutorOn(true, SHOP, s, 0, Commit);
  }

  /** A payment after the timeout handler has sent the stock back is not safe even when no handler is
      running and the order is not closed: the handler can have crashed before its commit. */
  lemma PaymentAfterCrashedTimeout() returns (s: State)
    ensures Reachable(true, s) && |s.orders| == 1
    ensures s.orders[0].row == Some(UNPAID) && s.orders[0].closing == 0 && s.orders[0].sent == 0
    ensures !s.orders[0].unsafeChange && !SafeChange(s.orders[0], PAID)
  {
    s := JustCommitted();
    s := TimeoutOn(true, SHOP, s, 0, TakeTimeout);
    s := TimeoutOn(true, SHOP, s, 0, CloseSend);
    s := TimeoutOn(true, SHOP, s, 0, CrashSent);
    Opened();
    RunsReach(true, SHOP, s);
  }
}
