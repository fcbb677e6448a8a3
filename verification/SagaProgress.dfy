/** The saga drains: executor and broker steps use up a fixed amount of work, only an undecodable
    message can get stuck, and once faults stop every run ends with everything else at rest. */
module SagaProgress {
  import opened Common
  import opened Quantities
  import opened Saga
  import opened SagaSafety

  /** Steps that make headway. Left out are the faults that put work back (failed or crashed timeout
      handlers, duplicated messages, an Unknown verdict) and status changes from outside. Executor
      failures and crashes count as headway. */
  predicate Drains(o: Order, a: Action)
  {
    match a
    case Executor(_) => true
    case Timeout(t) => t.TakeTimeout? || t.CloseSend? || t.CloseCommit?
    case Other(t) => t.DeliverVerdict? || t.TakeBack? || (t.CheckBack? && o.decodes)
  }

  function Rank(pc: Pc): nat
  {
    match pc
    case Starting => 10
    case Selling => 9
    case Saving => 8
    case Sending => 7
    case Committing => 2
    case Returned(_) => 1
    case Orphaned => 1
    case Stopped => 0
  }

  function Work(o: Order): nat
  {
    Rank(o.pc) + (if o.half then 2 else 0) + 4 * o.timeouts + 3 * o.closing + o.sent + o.backs
  }

  function AllWork(orders: seq<Order>): nat
  {
    if orders == [] then 0 else AllWork(orders[..|orders| - 1]) + Work(orders[|orders| - 1])
  }

  lemma {:induction false} AllWorkUpdate(orders: seq<Order>, i: nat, o: Order)
    requires i < |orders|
    ensures AllWork(orders[i := o]) == AllWork(orders) - Work(orders[i]) + Work(o)
  {
    var n := |orders| - 1;
    if i == n {
      assert orders[i := o][..n] == orders[..n];
    } else {
      assert orders[i := o][..n] == orders[..n][i := o];
      AllWorkUpdate(orders[..n], i, o);
    }
  }

  lemma ExecutorUsesWork(o: Order, e: ExecutorStep)
    requires ExecutorReady(o, e)
    ensures Work(ExecutorAct(o, e)) < Work(o)
  {
  }

  lemma TimeoutUsesWork(o: Order, t: TimeoutStep)
    requires TimeoutReady(o, t) && Drains(o, Timeout(t))
    ensures Work(TimeoutAct(o, t)) < Work(o)
  {
  }

  lemma OtherUsesWork(o: Order, t: OtherStep)
    requires OtherReady(o, t) && Drains(o, Other(t))
    ensures Work(OtherAct(o, t)) < Work(o)
  {
  }

  lemma DrainingUsesWork(o: Order, a: Action)
    requires Ready(o, a) && Drains(o, a)
    ensures Work(Act(o, a)) < Work(o)
  {
    match a
    case Executor(e) => ExecutorUsesWork(o, e);
    case Timeout(t) => TimeoutUsesWork(o, t);
    case Other(t) => OtherUsesWork(o, t);
  }

  /** Every event of the run drains when its turn comes. */
  ghost predicate DrainRun(timely: bool, s: State, es: seq<Event>)
    decreases |es|
  {
    es != [] ==>
      && Enabled(timely, s, es[0])
      && es[0].At?
      && Drains(s.orders[es[0].i], es[0].action)
      && DrainRun(timely, Apply(timely, s, es[0]), es[1..])
  }

  lemma ExecCons(timely: bool, s: State, e: Event, es: seq<Event>)
    requires Enabled(timely, s, e)
    ensures Exec(timely, s, [e]) == Some(Apply(timely, s, e))
    ensures Exec(timely, s, [e] + es) == Exec(timely, Apply(timely, s, e), es)
  {
    assert Exec(timely, s, []) == Some(s);
    ExecSnoc(timely, s, [], e);
    assert [] + [e] == [e];
    ExecConcat(timely, s, [e], es);
  }

  /** From any state at all, no run of such steps, executor failures and crashes included, is longer than the work in
      the state. */
  lemma {:induction false} DrainingIsBounded(timely: bool, s: State, es: seq<Event>)
    requires DrainRun(timely, s, es)
    ensures Exec(timely, s, es).Some?
    ensures |es| + AllWork(Exec(timely, s, es).value.orders) <= AllWork(s.orders)
    decreases |es|
  {
    if es != [] {
      var e := es[0];
      DrainingIsBounded(timely, Apply(timely, s, e), es[1..]);
      ExecCons(timely, s, e, es[1..]);
      assert [e] + es[1..] == es;
      DrainingUsesWork(s.orders[e.i], e.action);
      AllWorkUpdate(s.orders, e.i, Act(s.orders[e.i], e.action));
    }
  }

  /** A half message whose body cannot be decoded, once its executor is gone, is answered Unknown
      for ever. */
  predicate Stuck(o: Order) { !o.decodes && o.half && o.pc.Stopped? }

  // ----- once faults stop -----

  /** A step with no fault in it: nothing crashes, no reply or message is lost or repeated, no write fails, and stock
      is refused only when there is not enough. Reading an undecodable message, and saving an order
      without rows, can only fail. */
  ghost predicate Faultless(o: Order, stock: Stock, a: Action)
  {
    match a
    case Executor(e) =>
      (match e
       case ExitEarly => !o.decodes
       case SellRefused => !Sellable(stock, o.lines)
       case OrphanRefused => !Sellable(stock, o.lines)
       case SaveFails => o.lines == []
       case _ => !e.Crash? && !e.SellReplyLost? && !e.SendFails?)
    case Timeout(t) => t.TakeTimeout? || t.CloseSend? || t.CloseCommit?
    case Other(t) => t.DeliverVerdict? || t.TakeBack? || (t.CheckBack? && o.decodes)
  }

  /** A faultless step that the order's phase allows, when its cart would hold these lines. */
  ghost function NextStep(o: Order, stock: Stock, cart: seq<Line>): Action
  {
    match o.pc
    case Starting => Executor(if o.decodes then ReadCart(cart) else ExitEarly)
    case Selling => Executor(if Sellable(stock, o.lines) then SellOk else SellRefused)
    case Saving => Executor(if o.lines == [] then SaveFails else SaveOk)
    case Sending => Executor(SendOk)
    case Committing => Executor(Commit)
    case Returned(_) => Other(DeliverVerdict)
    case Orphaned => Executor(if Sellable(stock, o.lines) then OrphanSells else OrphanRefused)
    case Stopped =>
      if o.half then Other(CheckBack)
      else if o.sent > 0 then Timeout(CloseCommit)
      else if o.closing > 0 then Timeout(CloseSend)
      else if o.timeouts > 0 then Timeout(TakeTimeout)
      else Other(TakeBack)
  }

  lemma NextStepIsFaultless(o: Order, stock: Stock, cart: seq<Line>)
    requires !Quiet(o) && !Stuck(o)
    ensures var a := NextStep(o, stock, cart); Ready(o, a) && Faultless(o, stock, a) && Drains(o, a)
  {
  }

  lemma NextStepIsPossible(s: State, i: nat, cart: seq<Line>)
    requires Reachable(true, s) && i < |s.orders| && !Quiet(s.orders[i]) && !Stuck(s.orders[i]) && NonNegative(cart)
    ensures var a := NextStep(s.orders[i], s.stock, cart);
            Can(true, s.orders[i], s.stock, a) && Faultless(s.orders[i], s.stock, a)
  {
    StockIsConserved(true, s);
    assert LinesFine(s.orders[i], s.stock);
    NextStepIsFaultless(s.orders[i], s.stock, cart);
  }

  /** In a reachable state an order that is not at rest has a faultless step to make unless it is stuck, whatever its
      cart holds; in particular a "give back" delivery always finds the stock rows it has to update. */
  lemma OnlyUndecodableGetsStuck(s: State, i: nat)
    requires Reachable(true, s) && i < |s.orders| && !Quiet(s.orders[i])
    ensures (exists a :: Can(true, s.orders[i], s.stock, a) && Faultless(s.orders[i], s.stock, a)) <==>
            !Stuck(s.orders[i])
  {
    var o := s.orders[i];
    if !Stuck(o) {
      NextStepIsPossible(s, i, []);
    } else if a :| Can(true, o, s.stock, a) && Faultless(o, s.stock, a) {
      ReachableIsTidy(s, i);
    }
  }

  /** Every event of the run is faultless when its turn comes. */
  ghost predicate FaultlessRun(s: State, es: seq<Event>)
    decreases |es|
  {
    es != [] ==>
      && Enabled(true, s, es[0])
      && es[0].At?
      && Faultless(s.orders[es[0].i], s.stock, es[0].action)
      && FaultlessRun(Apply(true, s, es[0]), es[1..])
  }

  lemma {:induction false} FaultlessRunsDrain(s: State, es: seq<Event>)
    requires FaultlessRun(s, es)
    ensures DrainRun(true, s, es)
    decreases |es|
  {
    if es != [] {
      FaultlessRunsDrain(Apply(true, s, es[0]), es[1..]);
    }
  }

  ghost predicate NewlyStuck(before: State, after: State)
    requires |after.orders| == |before.orders|
  {
    exists i :: 0 <= i < |before.orders| && Stuck(after.orders[i]) && !Stuck(before.orders[i])
  }

  lemma {:induction false} FaultlessRunsGetNothingStuck(s: State, es: seq<Event>)
    requires Reachable(true, s) && FaultlessRun(s, es)
    ensures Exec(true, s, es).Some?
    ensures var end := Exec(true, s, es).value;
            Reachable(true, end) && |end.orders| == |s.orders| && !NewlyStuck(s, end)
    decreases |es|
  {
    if es != [] {
      var e, m := es[0], Apply(true, s, es[0]);
      ExecCons(true, s, e, es[1..]);
      assert [e] + es[1..] == es;
      ExecCons(true, s, e, []);
      ReachableExtends(true, s, [e], m);
      ReachableIsTidy(s, e.i);
      assert !NewlyStuck(s, m);
      FaultlessRunsGetNothingStuck(m, es[1..]);
    }
  }

  /** No order has a faultless step left. */
  ghost predicate NothingToDo(s: State)
  {
    forall i, a :: 0 <= i < |s.orders| && Can(true, s.orders[i], s.stock, a) ==> !Faultless(s.orders[i], s.stock, a)
  }

  /** Once faults stop, every run is finite, and one that cannot go on has brought every order to rest except those
      that were stuck when it began. */
  lemma MaximalFaultlessRunsRest(s: State, es: seq<Event>)
    requires Reachable(true, s) && FaultlessRun(s, es)
    ensures |es| <= AllWork(s.orders) && Exec(true, s, es).Some?
    ensures var end := Exec(true, s, es).value;
            && |end.orders| == |s.orders|
            && (NothingToDo(end) <==>
                forall i :: 0 <= i < |end.orders| ==>
                  Quiet(end.orders[i]) || (Stuck(end.orders[i]) && Stuck(s.orders[i])))
  {
    FaultlessRunsDrain(s, es);
    DrainingIsBounded(true, s, es);
    FaultlessRunsGetNothingStuck(s, es);
    var end := Exec(true, s, es).value;
    if NothingToDo(end) {
      forall i | 0 <= i < |end.orders| && !Quiet(end.orders[i]) ensures Stuck(end.orders[i]) && Stuck(s.orders[i]) {
        OnlyUndecodableGetsStuck(end, i);
      }
    } else {
      var i, a :| 0 <= i < |end.orders| && Can(true, end.orders[i], end.stock, a) &&
        Faultless(end.orders[i], end.stock, a);
      if Quiet(end.orders[i]) {
        ReachableIsTidy(end, i);
      } else {
        OnlyUndecodableGetsStuck(end, i);
      }
    }
  }

  /** One faultless event at an order that is not at rest. */
  lemma StepOn(s: State, i: nat, cart: seq<Line>) returns (e: Event)
    requires Reachable(true, s) && i < |s.orders| && !Quiet(s.orders[i]) && !Stuck(s.orders[i]) && NonNegative(cart)
    ensures Enabled(true, s, e) && e == At(i, NextStep(s.orders[i], s.stock, cart))
    ensures Faultless(s.orders[i], s.stock, e.action)
    ensures var m := Apply(true, s, e);
            && Reachable(true, m) && AllWork(m.orders) < AllWork(s.orders) && |m.orders| == |s.orders|
            && !NewlyStuck(s, m)
  {
    var o := s.orders[i];
    NextStepIsPossible(s, i, cart);
    NextStepIsFaultless(o, s.stock, cart);
    e := At(i, NextStep(o, s.stock, cart));
    ExecCons(true, s, e, []);
    ReachableExtends(true, s, [e], Apply(true, s, e));
    ReachableIsTidy(s, i);
    DrainingUsesWork(o, e.action);
    AllWorkUpdate(s.orders, i, Act(o, e.action));
  }

  ghost predicate Carts(carts: nat -> seq<Line>) { forall i :: NonNegative(carts(i)) }

  /** From every reachable state in which nothing is stuck, a faultless run brings every order to rest, whatever is
      in flight and whatever the carts hold that are still to be read. */
  lemma {:induction false} EverythingCanComeToRest(s: State, carts: nat -> seq<Line>) returns (es: seq<Event>)
    requires Reachable(true, s) && Carts(carts) && forall i :: 0 <= i < |s.orders| ==> !Stuck(s.orders[i])
    ensures FaultlessRun(s, es) && Exec(true, s, es).Some?
    ensures var end := Exec(true, s, es).value;
            && |end.orders| == |s.orders|
            && (forall i :: 0 <= i < |end.orders| ==> Quiet(end.orders[i]))
            && (forall i: nat, lines :: At(i, Executor(ReadCart(lines))) in es ==> lines == carts(i))
    decreases AllWork(s.orders)
  {
    if i :| 0 <= i < |s.orders| && !Quiet(s.orders[i]) {
      var e := StepOn(s, i, carts(i));
      var rest := EverythingCanComeToRest(Apply(true, s, e), carts);
      ExecCons(true, s, e, rest);
      es := [e] + rest;
      assert es[1..] == rest;
    } else {
      es := [];
    }
  }

  // ----- the check-back verdict -----

  /** The stock once every queued "give back" message of the order has been consumed. */
  ghost function Settled(o: Order, stock: Stock): Stock
    decreases o.backs
  {
    if o.backs == 0 then stock
    else Settled(OtherAct(o, TakeBack), Moved(o, stock, Other(TakeBack)))
  }

  lemma {:induction false} SettledOnce(o: Order, stock: Stock)
    ensures Settled(o, stock) == if o.backs > 0 && IsSold(o) then Add(stock, o.lines) else stock
    decreases o.backs
  {
    if o.backs > 0 {
      SettledOnce(OtherAct(o, TakeBack), Moved(o, stock, Other(TakeBack)));
    }
  }

  /** Replacing the executor's verdict by the one CheckLocalTransaction gives after a crash leads to
      the same stock, except when Sell had committed and its caller saw an error: then the
      check-back gives the goods back and the executor's own verdict loses them. A check-back that
      overtakes the executor's verdict does what it does after a crash. */
  lemma CheckBackIsInterchangeable(s: State, i: nat)
    requires Reachable(true, s) && i < |s.orders| && s.orders[i].pc.Returned? && s.orders[i].half
    ensures var o := s.orders[i];
            Settled(OtherAct(OtherAct(o, CheckBack), DeliverVerdict), s.stock) ==
            Settled(OtherAct(ExecutorAct(o, Crash), CheckBack), s.stock)
    ensures var o := s.orders[i];
            var told := OtherAct(o, DeliverVerdict);
            var asked := OtherAct(ExecutorAct(o, Crash), CheckBack);
            Settled(told, s.stock) == Settled(asked, s.stock) <==>
            !(o.replyLost && exists p :: p in s.stock && Total(o.lines, p) != 0)
  {
    var o := s.orders[i];
    ReachableIsTidy(s, i);
    var told := OtherAct(o, DeliverVerdict);
    var asked := OtherAct(ExecutorAct(o, Crash), CheckBack);
    SettledOnce(told, s.stock);
    SettledOnce(asked, s.stock);
    SettledOnce(OtherAct(OtherAct(o, CheckBack), DeliverVerdict), s.stock);
    if o.replyLost {
      var back := Add(s.stock, o.lines);
      assert Settled(told, s.stock) == s.stock && Settled(asked, s.stock) == back;
      if p :| p in s.stock && Total(o.lines, p) != 0 {
        assert back[p] != s.stock[p];
      } else {
        assert back == s.stock;
      }
    }
  }
}
