/** The order saga as a state machine. One `Order` is everything the two services and the broker
    hold for one order number: the executor's program counter, the half message, the stock
    ledger row, the committed order row, and the queued or running "timeout" and "give back"
    deliveries. Every source of nondeterminism (failures, crashes, duplicates, interleaving) is in
    the choice of the next event, so a list of events determines a run. */
module Saga {
  import opened Common
  import opened Quantities

  const UNPAID := "unPay"
  const PAID := "suc"
  const CLOSED := "order_closed"

  datatype Verdict = CommitMessage | RollbackMessage | Unknown

  /** Where ExecuteLocalTransaction is. `Orphaned`: the process died while its Sell call was still
      in flight. `Stopped`: the executor is gone, whether or not the broker got its verdict. */
  datatype Pc =
    | Starting | Selling | Saving | Sending | Committing
    | Returned(verdict: Verdict) | Orphaned | Stopped

  datatype Order = Order(
    decodes: bool,        // the message body can be decoded
    lines: seq<Line>,     // what the cart held when it was read
    pc: Pc,
    half: bool,           // the half message waits for a verdict
    ledger: Option<Status>,  // status of the stock ledger row
    row: Option<string>,  // status of the committed order row
    timeouts: nat,        // queued timeout messages
    closing: nat,         // timeout handlers that read an unpaid order and have not saved yet
    sent: nat,            // timeout handlers that saved and sent "give back" and have not committed
    backs: nat,           // queued "give back" messages
    replyLost: bool,      // history: Sell committed but its caller saw an error
    rolledBack: bool,     // history: the broker took the executor's own Rollback verdict
    backSent: bool,       // history: a timeout handler's "give back" message left
    unsafeChange: bool)   // history: some status change came when SafeChange did not hold

  datatype State = State(stock: Stock, supply: Stock, orders: seq<Order>)

  /** Steps of ExecuteLocalTransaction, and of a Sell call whose caller died. */
  datatype ExecutorStep =
    | ExitEarly | ReadCart(lines: seq<Line>)
    | SellOk | SellRefused | SellReplyLost
    | SaveFails | SaveOk | SendFails(arrived: bool) | SendOk | Commit
    | Crash | OrphanSells | OrphanRefused

  /** Steps of the timeout handler and of the broker's timeout queue. */
  datatype TimeoutStep =
    | TakeTimeout | CloseSend | CloseSendFails(arrived: bool) | CloseCommit
    | CrashClosing | CrashSent | DuplicateTimeout

  /** Verdicts and "give back" deliveries, and status changes by other services. */
  datatype OtherStep =
    | DeliverVerdict | CheckBack
    | TakeBack | DuplicateBack
    | ChangeStatus(status: string)

  datatype Action = Executor(es: ExecutorStep) | Timeout(ts: TimeoutStep) | Other(os: OtherStep)

  datatype Event = Create(decodes: bool) | Restock(product: int, num: int) | At(i: nat, action: Action)

  /** What CheckLocalTransaction answers. */
  function CheckVerdict(decodes: bool, row: Option<string>): Verdict
  {
    if !decodes then Unknown else if row.None? then CommitMessage else RollbackMessage
  }

  /** Whether the timeout handler closes the order it finds, or just acknowledges the message. */
  predicate MustClose(row: Option<string>)
  {
    row.Some? && row.value != PAID
  }

  function New(decodes: bool): Order
  {
    Order(decodes, [], Starting, true, None, None, 0, 0, 0, 0, false, false, false, false)
  }

  /** The ledger says that the stock is sold, or that it has been given back. */
  predicate IsSold(o: Order) { o.ledger.Some? && o.ledger.value.HasSell? }

  predicate IsBack(o: Order) { o.ledger.Some? && o.ledger.value.HasBack? }

  /** Timeout messages that are queued or being handled. */
  function Pending(o: Order): nat { o.timeouts + o.closing + o.sent }

  /** When ChangeOrderStatus does no harm: a payment must come before any timeout handler has read
      the order as unpaid or sent its stock back; any other status must leave a timeout
      delivery that will still look at it. */
  predicate SafeChange(o: Order, status: string)
  {
    if status == PAID then o.closing == 0 && !o.backSent
    else Pending(o) > 0 || (status == CLOSED && o.row == Some(CLOSED))
  }

  predicate Running(o: Order) { !o.pc.Returned? && !o.pc.Stopped? }

  predicate Sells(a: Action)
  {
    a.Executor? && (a.es.SellOk? || a.es.SellReplyLost? || a.es.OrphanSells?)
  }

  predicate Returns(o: Order, a: Action)
  {
    a == Other(TakeBack) && IsSold(o)
  }

  predicate ExecutorReady(o: Order, e: ExecutorStep)
  {
    match e
    case ExitEarly => o.pc.Starting?
    case ReadCart(_) => o.pc.Starting? && o.decodes
    case SellOk => o.pc.Selling?
    case SellRefused => o.pc.Selling?
    case SellReplyLost => o.pc.Selling?
    case SaveFails => o.pc.Saving?
    case SaveOk => o.pc.Saving? && o.lines != []  // an order without rows cannot be saved
    case SendFails(_) => o.pc.Sending?
    case SendOk => o.pc.Sending?
    case Commit => o.pc.Committing?
    case Crash => !o.pc.Stopped? && !o.pc.Orphaned?
    case OrphanSells => o.pc.Orphaned?
    case OrphanRefused => o.pc.Orphaned?
  }

  function ExecutorAct(o: Order, e: ExecutorStep): Order
    requires ExecutorReady(o, e)
  {
    match e
    case ExitEarly => o.(pc := Returned(RollbackMessage))
    case ReadCart(lines) => o.(lines := lines, pc := Selling)
    case SellOk => o.(ledger := Some(HasSell), pc := Saving)
    case SellRefused => o.(pc := Returned(RollbackMessage))
    case SellReplyLost => o.(ledger := Some(HasSell), pc := Returned(RollbackMessage), replyLost := true)
    case SaveFails => o.(pc := Returned(CommitMessage))
    case SaveOk => o.(pc := Sending)
    case SendFails(arrived) =>
      o.(pc := Returned(CommitMessage), timeouts := o.timeouts + if arrived then 1 else 0)
    case SendOk => o.(pc := Committing, timeouts := o.timeouts + 1)
    case Commit => o.(pc := Returned(RollbackMessage), row := Some(UNPAID))
    case Crash => o.(pc := if o.pc.Selling? then Orphaned else Stopped)
    case OrphanSells => o.(ledger := Some(HasSell), pc := Stopped)
    case OrphanRefused => o.(pc := Stopped)
  }

  predicate TimeoutReady(o: Order, t: TimeoutStep)
  {
    match t
    case TakeTimeout => o.timeouts > 0
    case CloseSend => o.closing > 0 && o.sent == 0       // the handler's Save locks the order row
    case CloseSendFails(_) => o.closing > 0 && o.sent == 0
    case CloseCommit => o.sent > 0
    case CrashClosing => o.closing > 0
    case CrashSent => o.sent > 0
    case DuplicateTimeout => Pending(o) > 0
  }

  function TimeoutAct(o: Order, t: TimeoutStep): Order
    requires TimeoutReady(o, t)
  {
    match t
    case TakeTimeout =>
      o.(timeouts := o.timeouts - 1, closing := o.closing + if MustClose(o.row) then 1 else 0)
    case CloseSend => o.(closing := o.closing - 1, sent := o.sent + 1, backs := o.backs + 1, backSent := true)
    case CloseSendFails(arrived) => o.(closing := o.closing - 1, timeouts := o.timeouts + 1,
      backs := o.backs + if arrived then 1 else 0, backSent := o.backSent || arrived)
    case CloseCommit => o.(sent := o.sent - 1, row := Some(CLOSED))
    case CrashClosing => o.(closing := o.closing - 1, timeouts := o.timeouts + 1)
    case CrashSent => o.(sent := o.sent - 1, timeouts := o.timeouts + 1)
    case DuplicateTimeout => o.(timeouts := o.timeouts + 1)
  }

  predicate OtherReady(o: Order, t: OtherStep)
  {
    match t
    case DeliverVerdict => o.pc.Returned?
    case CheckBack => o.half
    case TakeBack => o.backs > 0
    case DuplicateBack => o.backs > 0
    case ChangeStatus(_) => o.row.Some? && o.sent == 0
  }

  function OtherAct(o: Order, t: OtherStep): Order
    requires OtherReady(o, t)
  {
    match t
    case DeliverVerdict => Resolve(o, o.pc.verdict).(pc := Stopped,
      rolledBack := o.rolledBack || (o.half && o.pc.verdict == RollbackMessage))
    case CheckBack => Resolve(o, CheckVerdict(o.decodes, o.row))
    case TakeBack => o.(backs := o.backs - 1, ledger := if IsSold(o) then Some(HasBack) else o.ledger)
    case DuplicateBack => o.(backs := o.backs + 1)
    case ChangeStatus(status) => o.(row := Some(status), unsafeChange := o.unsafeChange || !SafeChange(o, status))
  }

  /** Which steps the order itself allows, and what they make of it. */
  predicate Ready(o: Order, a: Action)
  {
    match a
    case Executor(e) => ExecutorReady(o, e)
    case Timeout(t) => TimeoutReady(o, t)
    case Other(t) => OtherReady(o, t)
  }

  function Act(o: Order, a: Action): Order
    requires Ready(o, a)
  {
    match a
    case Executor(e) => ExecutorAct(o, e)
    case Timeout(t) => TimeoutAct(o, t)
    case Other(t) => OtherAct(o, t)
  }

  /** What else a step needs: a sale the stock can serve, stock rows a return can update, and,
      under `timely`, a broker that checks back and delivers a timeout message only after the
      executor returned or stopped. A check-back may still overtake the returned verdict. */
  ghost predicate Can(timely: bool, o: Order, stock: Stock, a: Action)
  {
    && Ready(o, a)
    && (a.Executor? && a.es.ReadCart? ==> NonNegative(a.es.lines))
    && (Sells(a) ==> Sellable(stock, o.lines))
    && (Returns(o, a) ==> AllListed(stock, o.lines))
    && (timely && a == Other(CheckBack) ==> !Running(o))
    && (timely && a == Timeout(TakeTimeout) ==> !Running(o))
  }

  /** The broker applies a verdict to the half message, if it still waits for one. */
  function Resolve(o: Order, v: Verdict): Order
  {
    if !o.half || v == Unknown then o
    else o.(half := false, backs := o.backs + if v == CommitMessage then 1 else 0)
  }

  /** The stock's part of a step: only a committed sale and a first return move stock. */
  ghost function Moved(o: Order, stock: Stock, a: Action): Stock
  {
    if Sells(a) then Subtract(stock, o.lines)
    else if Returns(o, a) then Add(stock, o.lines)
    else stock
  }

  ghost predicate Enabled(timely: bool, s: State, e: Event)
  {
    match e
    case Create(_) => true
    case Restock(p, n) => p in s.stock && p in s.supply && n >= 0
    case At(i, a) => i < |s.orders| && Can(timely, s.orders[i], s.stock, a)
  }

  ghost function Apply(timely: bool, s: State, e: Event): State
    requires Enabled(timely, s, e)
  {
    match e
    case Create(decodes) => s.(orders := s.orders + [New(decodes)])
    case Restock(p, n) => s.(stock := s.stock[p := s.stock[p] + n], supply := s.supply[p := s.supply[p] + n])
    case At(i, a) =>
      var o := s.orders[i];
      s.(stock := Moved(o, s.stock, a), orders := s.orders[i := Act(o, a)])
  }

  /** The state the events lead to from s, if each is enabled when its turn comes. */
  ghost function Exec(timely: bool, s: State, es: seq<Event>): Option<State>
  {
    if es == [] then Some(s)
    else
      match Exec(timely, s, es[..|es| - 1])
      case None => None
      case Some(m) =>
        var e := es[|es| - 1];
        if Enabled(timely, m, e) then Some(Apply(timely, m, e)) else None
  }

  ghost predicate Init(s: State)
  {
    s.orders == [] && s.supply == s.stock && forall p :: p in s.stock ==> s.stock[p] >= 0
  }

  ghost predicate Reachable(timely: bool, s: State)
  {
    exists s0, es :: Init(s0) && Exec(timely, s0, es) == Some(s)
  }

  lemma ExecSnoc(timely: bool, s: State, es: seq<Event>, e: Event)
    requires Exec(timely, s, es).Some? && Enabled(timely, Exec(timely, s, es).value, e)
    ensures Exec(timely, s, es + [e]) == Some(Apply(timely, Exec(timely, s, es).value, e))
  {
    assert (es + [e])[..|es|] == es;
  }

  lemma {:induction false} ExecConcat(timely: bool, s: State, a: seq<Event>, b: seq<Event>)
    requires Exec(timely, s, a).Some?
    ensures Exec(timely, s, a + b) == Exec(timely, Exec(timely, s, a).value, b)
  {
    if b == [] {
      assert a + b == a;
    } else {
      assert (a + b)[..|a + b| - 1] == a + b[..|b| - 1];
      ExecConcat(timely, s, a, b[..|b| - 1]);
    }
  }

  /** Whatever follows a reachable state is reachable. */
  lemma ReachableExtends(timely: bool, s: State, es: seq<Event>, s': State)
    requires Reachable(timely, s) && Exec(timely, s, es) == Some(s')
    ensures Reachable(timely, s')
  {
    var s0, es0 :| Init(s0) && Exec(timely, s0, es0) == Some(s);
    ExecConcat(timely, s0, es0, es);
    assert Exec(timely, s0, es0 + es) == Some(s');
  }

  /** A run leads from s to s'. */
  ghost predicate Runs(timely: bool, s: State, s': State)
  {
    exists es :: Exec(timely, s, es) == Some(s')
  }

  lemma StartsAt(timely: bool, s: State)
    ensures Runs(timely, s, s)
  {
    assert Exec(timely, s, []) == Some(s);
  }

  lemma RunsReach(timely: bool, s: State, s': State)
    requires Reachable(timely, s) && Runs(timely, s, s')
    ensures Reachable(timely, s')
  {
    var es :| Exec(timely, s, es) == Some(s');
    ReachableExtends(timely, s, es, s');
  }

  /** One more step of a run, at order i. */
  lemma Onward(timely: bool, s: State, m: State, i: nat, a: Action) returns (s': State)
    requires Runs(timely, s, m) && i < |m.orders| && Can(timely, m.orders[i], m.stock, a)
    ensures Runs(timely, s, s')
    ensures s' == m.(stock := Moved(m.orders[i], m.stock, a), orders := m.orders[i := Act(m.orders[i], a)])
  {
    var es :| Exec(timely, s, es) == Some(m);
    ExecSnoc(timely, s, es, At(i, a));
    s' := Apply(timely, m, At(i, a));
  }

  lemma ExecutorOn(timely: bool, s: State, m: State, i: nat, e: ExecutorStep) returns (s': State)
    requires Runs(timely, s, m) && i < |m.orders| && ExecutorReady(m.orders[i], e)
    requires e.ReadCart? ==> NonNegative(e.lines)
    requires Sells(Executor(e)) ==> Sellable(m.stock, m.orders[i].lines)
    ensures Runs(timely, s, s') && s'.orders == m.orders[i := ExecutorAct(m.orders[i], e)]
    ensures s'.stock == if Sells(Executor(e)) then Subtract(m.stock, m.orders[i].lines) else m.stock
  {
    s' := Onward(timely, s, m, i, Executor(e));
  }

  lemma TimeoutOn(timely: bool, s: State, m: State, i: nat, t: TimeoutStep) returns (s': State)
    requires Runs(timely, s, m) && i < |m.orders| && TimeoutReady(m.orders[i], t)
    requires timely && t.TakeTimeout? ==> !Running(m.orders[i])
    ensures Runs(timely, s, s') && s'.orders == m.orders[i := TimeoutAct(m.orders[i], t)] && s'.stock == m.stock
  {
    s' := Onward(timely, s, m, i, Timeout(t));
  }
}
