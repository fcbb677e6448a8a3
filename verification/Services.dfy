/** The two services and the broker run together from empty tables. Each event is one handler run to its end, as its
    contract describes it, or something the broker or the outside does; events come in any order and number. Every
    state that is ever reached is represented by a state that the saga reaches under a timely broker, so what is proved
    of the saga holds of tables, queues and ledger. */
module Services {
  import opened Common
  import opened Quantities
  import opened Saga
  import opened SagaRefinement
  import opened SagaSafety
  import Checkout
  import Consumer = BackStockConsumer
  import Orders = OrderService

  /** What became of the executor of a half message. */
  datatype Phase = Waiting | Told(verdict: Verdict) | Gone

  /** A half message that CreateOrder has sent, with its order's history. */
  datatype Transaction = Transaction(
    no: string, body: Orders.Body,
    phase: Phase,
    half: bool,           // the broker still waits for a verdict
    replyLost: bool,      // Sell committed but its caller saw an error
    rolledBack: bool,     // the broker took the executor's own Rollback verdict
    backSent: bool,       // a timeout handler has sent "give back"
    unsafeChange: bool)   // some status change came when it was not safe

  datatype World = World(t: Orders.Tables, stock: Stock, ledger: LedgerTable, sent: seq<Transaction>)

  datatype Event =
    | CreateOrder(no: string, body: Orders.Body)
    | Execute(i: nat, account: int, reply: Option<seq<Checkout.Product>>, f: Orders.Faults, amount: real, v: Verdict)
    | TakeVerdict(i: nat)
    | Die(i: nat)  // the executor's process dies before it begins, or before its verdict is taken
    | AskBack(i: nat)
    | HandleTimeout(i: nat, k: nat, sendFails: bool, missing: bool, failed: bool, after: Orders.Tables)
    | RepeatTimeout(i: nat, k: nat)
    | GiveBack(i: nat, k: nat)
    | RepeatBack(i: nat, k: nat)
    | ChangeOrderStatus(i: nat, id: int, status: string, found: bool)
    | SetStock(product: int, num: int)
    | ChangeCart(cart: seq<Checkout.CartRow>)

  function Numbers(sent: seq<Transaction>): (nos: seq<string>)
    ensures |nos| == |sent| && forall i :: 0 <= i < |sent| ==> nos[i] == sent[i].no
  {
    seq(|sent|, i requires 0 <= i < |sent| => sent[i].no)
  }

  function Set(w: World, i: nat, x: Transaction): World
    requires i < |w.sent|
  {
    w.(sent := w.sent[i := x])
  }

  predicate IsSent(w: World, i: nat) { i < |w.sent| }

  predicate QueuedTimeout(w: World, i: nat, k: nat)
  {
    i < |w.sent| && k < |w.t.timeouts| && IsFor(w.t.timeouts[k], w.sent[i].no)
  }

  predicate QueuedBack(w: World, i: nat, k: nat)
  {
    i < |w.sent| && k < |w.t.backs| && IsFor(w.t.backs[k], w.sent[i].no)
  }

  /** When a status change does no harm, told from tables and history. */
  predicate SafeNow(w: World, i: nat, status: string)
    requires i < |w.sent|
  {
    var no := w.sent[i].no;
    if status == PAID then !w.sent[i].backSent
    else CountFor(w.t.timeouts, no) > 0 || (status == CLOSED && Orders.StatusOf(w.t.orders, no) == Some(CLOSED))
  }

  /** The events carry what the handlers return, and the timeout handler's tables. */
  ghost predicate Executes(w: World, e: Event, w': World)
    requires e.Execute?
  {
    && IsSent(w, e.i) && w.sent[e.i].phase == Waiting
    && var x := w.sent[e.i];
       var catalogue := (ids: seq<int>) => e.reply;
       var list := Orders.ToSell(x.body, e.account, w.t.cart, catalogue);
       && Orders.Executed(x.body, e.account, catalogue, e.f, w.t, w.stock, w'.t, w'.stock, e.amount, e.v)
       && w'.ledger == LedgerAfterSale(w.ledger, x.no, list, w.stock, e.f)
       && w'.sent == w.sent[e.i := x.(phase := Told(e.v),
                                      replyLost := Orders.Sold(list, w.stock, e.f) && e.f.replyLost)]
  }

  ghost predicate TimesOut(w: World, e: Event, w': World)
    requires e.HandleTimeout?
  {
    && QueuedTimeout(w, e.i, e.k)
    && Orders.TimedOut(w.t.timeouts[e.k].item, e.sendFails, w.t, e.after, e.missing, e.failed)
    && |e.after.timeouts| == |w.t.timeouts|
    && var x := w.sent[e.i];
       w' == Set(w, e.i, x.(backSent := x.backSent || (MustClose(Orders.StatusOf(w.t.orders, x.no)) && !e.failed)))
               .(t := Answered(e.after, e.k, e.failed))
  }

  ghost predicate ChangesStatus(w: World, e: Event, w': World)
    requires e.ChangeOrderStatus?
  {
    && IsSent(w, e.i)
    && var x := w.sent[e.i];
       && Orders.StatusChanged(e.id, x.no, e.status, w.t, w'.t, e.found)
       && w' == Set(w, e.i, x.(unsafeChange := x.unsafeChange || (e.found && !SafeNow(w, e.i, e.status))))
                  .(t := w'.t)
  }

  function Verdicted(w: World, i: nat): World
    requires i < |w.sent| && w.sent[i].phase.Told?
  {
    var x := w.sent[i];
    var v := x.phase.verdict;
    Set(w, i, x.(phase := Gone, half := x.half && v == Unknown,
                 rolledBack := x.rolledBack || (x.half && v == RollbackMessage)))
      .(t := Resolved(w.t, x.half, x.body, v))
  }

  function Asked(w: World, i: nat): World
    requires i < |w.sent|
  {
    var x, v := w.sent[i], Orders.CheckAnswer(w.sent[i].body, w.t);
    Set(w, i, x.(half := v == Unknown)).(t := Resolved(w.t, true, x.body, v))
  }

  /** The consumer's delivery, and the broker's queue after its answer. */
  ghost function Given(w: World, k: nat): World
    requires k < |w.t.backs|
  {
    var db, batch := Consumer.Db(w.stock, w.ledger), [AsMessage(w.t.backs[k])];
    var db' := Consumer.Deliver(db, Consumer.Attempt(batch, true));
    w.(stock := db'.stock, ledger := db'.ledger,
       t := if Consumer.Answer(db, batch) == ConsumeSuccess then w.t.(backs := Without(w.t.backs, k)) else w.t)
  }

  ghost predicate NonNegativeCart(cart: seq<Checkout.CartRow>) { forall row :: row in cart ==> row.num >= 0 }

  ghost predicate Next(w: World, e: Event, w': World)
  {
    match e
    case CreateOrder(no, body) =>
      && no !in Numbers(w.sent) && (body.Encoded? ==> body.item.no == no)
      && w' == w.(sent := w.sent + [Transaction(no, body, Waiting, true, false, false, false, false)])
    case Execute(_, _, _, _, _, _) => Executes(w, e, w')
    case TakeVerdict(i) => IsSent(w, i) && w.sent[i].phase.Told? && w' == Verdicted(w, i)
    case Die(i) => IsSent(w, i) && w.sent[i].phase != Gone && w' == Set(w, i, w.sent[i].(phase := Gone))
    case AskBack(i) => IsSent(w, i) && w.sent[i].half && w.sent[i].phase != Waiting && w' == Asked(w, i)
    case HandleTimeout(_, _, _, _, _, _) => TimesOut(w, e, w')
    case RepeatTimeout(i, k) =>
      QueuedTimeout(w, i, k) && w' == w.(t := w.t.(timeouts := w.t.timeouts + [w.t.timeouts[k]]))
    case GiveBack(i, k) => QueuedBack(w, i, k) && w' == Given(w, k)
    case RepeatBack(i, k) => QueuedBack(w, i, k) && w' == w.(t := w.t.(backs := w.t.backs + [w.t.backs[k]]))
    case ChangeOrderStatus(_, _, _, _) => ChangesStatus(w, e, w')
    case SetStock(p, n) => p in w.stock && n >= 0 && w' == w.(stock := w.stock[p := w.stock[p] + n])
    case ChangeCart(cart) => NonNegativeCart(cart) && w' == w.(t := w.t.(cart := cart))
  }

  /** Empty tables and queues, and some stock. */
  ghost predicate Opened(w: World)
  {
    && w == World(Orders.Tables([], [], [], 1, [], []), w.stock, map[], [])
    && forall p :: p in w.stock ==> w.stock[p] >= 0
  }

  /** A run: each world follows from the one before it by its event. */
  ghost predicate IsRun(worlds: seq<World>, es: seq<Event>)
  {
    && |worlds| == |es| + 1 && Opened(worlds[0])
    && forall k :: 0 <= k < |es| ==> Next(worlds[k], es[k], worlds[k + 1])
  }

  ghost predicate Reached(w: World)
  {
    exists worlds, es :: IsRun(worlds, es) && worlds[|es|] == w
  }

  // ----- the saga's state behind a world -----

  predicate Tracks(x: Transaction, o: Order)
  {
    && o.decodes == x.body.Encoded? && (x.body.Encoded? ==> x.body.item.no == x.no)
    && (x.phase.Waiting? <==> o.pc.Starting?)
    && (x.phase.Told? <==> o.pc.Returned?) && (x.phase.Told? ==> o.pc.verdict == x.phase.verdict)
    && (x.phase.Gone? <==> o.pc.Stopped?)
    && o.half == x.half && o.closing == 0 && o.sent == 0
    && o.replyLost == x.replyLost && o.rolledBack == x.rolledBack
    && o.backSent == x.backSent && o.unsafeChange == x.unsafeChange
  }

  ghost predicate AllTracked(w: World, s: State)
  {
    |s.orders| == |w.sent| && forall i :: 0 <= i < |w.sent| ==> Tracks(w.sent[i], s.orders[i])
  }

  ghost predicate Unmentioned(no: string, t: Orders.Tables, ledger: LedgerTable)
  {
    && Orders.StatusOf(t.orders, no).None? && no !in ledger
    && CountFor(t.timeouts, no) == 0 && CountFor(t.backs, no) == 0
  }

  /** Nothing mentions an order number that no half message has. */
  ghost predicate NothingElse(nos: seq<string>, t: Orders.Tables, ledger: LedgerTable)
  {
    forall no :: no !in nos ==> Unmentioned(no, t, ledger)
  }

  ghost predicate Tidied(w: World)
  {
    NothingElse(Numbers(w.sent), w.t, w.ledger) && DistinctNumbers(w.t.orders) && NonNegativeCart(w.t.cart)
  }

  ghost predicate Behind(w: World, s: State)
  {
    && Reachable(true, s) && s.stock == w.stock
    && Represents(s, Numbers(w.sent), w.t, w.ledger) && AllTracked(w, s) && Tidied(w)
  }

  /** One order and its transaction replaced. */
  lemma StillBehind(w: World, s: State, i: nat, w': World, s': State)
    requires Behind(w, s) && i < |w.sent| && Runs(true, s, s') && s'.stock == w'.stock
    requires |w'.sent| == |w.sent| && w'.sent == w.sent[i := w'.sent[i]] && w'.sent[i].no == w.sent[i].no
    requires |s'.orders| == |s.orders| && s'.orders == s.orders[i := s'.orders[i]]
    requires Represents(s', Numbers(w.sent), w'.t, w'.ledger) && Tracks(w'.sent[i], s'.orders[i])
    requires OnlyAbout(w.sent[i].no, w.t, w.ledger, w'.t, w'.ledger)
    requires DistinctNumbers(w'.t.orders) && NonNegativeCart(w'.t.cart)
    ensures Behind(w', s')
  {
    assert Numbers(w'.sent) == Numbers(w.sent);
    RunsReach(true, s, s');
    forall j | 0 <= j < |w'.sent| ensures Tracks(w'.sent[j], s'.orders[j]) {
      assert Tracks(w.sent[j], s.orders[j]);
    }
  }

  // ----- one event -----

  lemma CreateRuns(s: State, decodes: bool) returns (s': State)
    requires Reachable(true, s)
    ensures Reachable(true, s') && s' == s.(orders := s.orders + [New(decodes)])
  {
    assert Exec(true, s, []) == Some(s);
    ExecSnoc(true, s, [], Create(decodes));
    s' := Apply(true, s, Create(decodes));
    ReachableExtends(true, s, [] + [Create(decodes)], s');
  }

  lemma RestockRuns(s: State, p: int, n: int) returns (s': State)
    requires Reachable(true, s) && p in s.stock && n >= 0
    ensures Reachable(true, s') && s'.orders == s.orders && s'.stock == s.stock[p := s.stock[p] + n]
  {
    StockIsConserved(true, s);
    assert Exec(true, s, []) == Some(s);
    ExecSnoc(true, s, [], Restock(p, n));
    s' := Apply(true, s, Restock(p, n));
    ReachableExtends(true, s, [] + [Restock(p, n)], s');
  }

  lemma CreatedBehind(w: World, s: State, no: string, body: Orders.Body, w': World) returns (s': State)
    requires Behind(w, s) && Next(w, CreateOrder(no, body), w')
    ensures Behind(w', s')
  {
    s' := CreateRuns(s, body.Encoded?);
    assert Numbers(w'.sent) == Numbers(w.sent) + [no];
    assert Unmentioned(no, w.t, w.ledger);
    forall i | 0 <= i < |w.sent| ensures Shows(s'.orders[i], w'.sent[i].no, w.t, w.ledger) {
      assert Shows(s.orders[i], Numbers(w.sent)[i], w.t, w.ledger);
    }
    forall other | other !in Numbers(w'.sent) ensures Unmentioned(other, w.t, w.ledger) {
      assert other !in Numbers(w.sent);
    }
  }

  lemma {:induction false} LeftRowsAreRows(cart: seq<Checkout.CartRow>, account: int)
    ensures forall row :: row in Checkout.Unchecked(cart, account) ==> row in cart
  {
    if cart != [] {
      LeftRowsAreRows(cart[..|cart| - 1], account);
    }
  }

  lemma ExecutedKeepsTables(w: World, e: Event, w': World)
    requires e.Execute? && Executes(w, e, w') && DistinctNumbers(w.t.orders) && NonNegativeCart(w.t.cart)
    requires w.sent[e.i].body.Encoded? ==> Orders.StatusOf(w.t.orders, w.sent[e.i].body.item.no).None?
    ensures DistinctNumbers(w'.t.orders) && NonNegativeCart(w'.t.cart)
  {
    LeftRowsAreRows(w.t.cart, e.account);
    if w'.t.orders != w.t.orders {
      forall k | 0 <= k < |w.t.orders| ensures w.t.orders[k].no != w.sent[e.i].body.item.no {
        assert Orders.Find(w.t.orders, w.sent[e.i].body.item.no) == |w.t.orders|;
      }
    }
  }

  lemma ExecutedBehind(w: World, s: State, e: Event, w': World) returns (s': State)
    requires e.Execute? && Behind(w, s) && Executes(w, e, w')
    ensures Behind(w', s')
  {
    var x, nos := w.sent[e.i], Numbers(w.sent);
    var catalogue := (ids: seq<int>) => e.reply;
    assert Tracks(x, s.orders[e.i]) && Shows(s.orders[e.i], nos[e.i], w.t, w.ledger);
    ReachableIsTidy(s, e.i);
    ExecutedKeepsTables(w, e, w');
    s' := ExecuteSimulatesSaga(s, e.i, nos, w.ledger, x.body, e.account, catalogue, e.f, w.t, w'.t, w'.stock,
                               e.amount, e.v);
    StillBehind(w, s, e.i, w', s');
  }

  lemma VerdictBehind(w: World, s: State, i: nat, w': World) returns (s': State)
    requires Behind(w, s) && Next(w, TakeVerdict(i), w')
    ensures Behind(w', s')
  {
    assert Tracks(w.sent[i], s.orders[i]);
    ReachableIsTidy(s, i);
    s' := VerdictSimulatesSaga(s, i, Numbers(w.sent), w.ledger, w.sent[i].body, w.t);
    StillBehind(w, s, i, w', s');
  }

  lemma AskedTracks(x: Transaction, o: Order)
    requires Tracks(x, o) && o.half
    ensures var v := CheckVerdict(o.decodes, o.row); Tracks(x.(half := v == Unknown), OtherAct(o, CheckBack))
  {
  }

  lemma AskedBehind(w: World, s: State, i: nat, w': World) returns (s': State)
    requires Behind(w, s) && Next(w, AskBack(i), w')
    ensures Behind(w', s')
  {
    assert Tracks(w.sent[i], s.orders[i]) && Shows(s.orders[i], Numbers(w.sent)[i], w.t, w.ledger);
    AskedTracks(w.sent[i], s.orders[i]);
    s' := CheckBackSimulatesSaga(s, i, Numbers(w.sent), w.ledger, w.sent[i].body, w.t);
    StillBehind(w, s, i, w', s');
  }

  lemma DiedBehind(w: World, s: State, i: nat, w': World) returns (s': State)
    requires Behind(w, s) && Next(w, Die(i), w')
    ensures Behind(w', s')
  {
    assert Tracks(w.sent[i], s.orders[i]) && Shows(s.orders[i], Numbers(w.sent)[i], w.t, w.ledger);
    StartsAt(true, s);
    s' := ExecutorOn(true, s, s, i, Crash);
    NothingChanges(s.orders[i], w.sent[i].no, w.ledger, w.t, w.t);
    StillRepresents(s, Numbers(w.sent), w.t, w.ledger, i, s', w.t, w.ledger);
    StillBehind(w, s, i, w', s');
  }

  /** The queue's messages are only delivered once the executor has returned: it sends them last. */
  lemma NotRunning(w: World, s: State, i: nat)
    requires Behind(w, s) && i < |w.sent| && CountFor(w.t.timeouts, w.sent[i].no) > 0
    ensures !Running(s.orders[i])
  {
    assert Tracks(w.sent[i], s.orders[i]) && Shows(s.orders[i], Numbers(w.sent)[i], w.t, w.ledger);
    ReachableIsTidy(s, i);
  }

  lemma SameNumbersDistinct(a: seq<Orders.OrderItem>, b: seq<Orders.OrderItem>)
    requires DistinctNumbers(a) && Orders.SameNumbers(a, b)
    ensures DistinctNumbers(b)
  {
  }

  lemma TimedOutBehind(w: World, s: State, e: Event, w': World) returns (s': State)
    requires e.HandleTimeout? && Behind(w, s) && TimesOut(w, e, w')
    ensures Behind(w', s')
  {
    var i, nos, order := e.i, Numbers(w.sent), w.t.timeouts[e.k].item;
    assert Tracks(w.sent[i], s.orders[i]) && Shows(s.orders[i], nos[i], w.t, w.ledger);
    CountAcknowledged(w.t.timeouts, e.k, w.sent[i].no);
    NotRunning(w, s, i);
    SameNumbersDistinct(w.t.orders, e.after.orders);
    s' := TimeoutSimulatesSaga(s, i, nos, w.ledger, e.k, order, e.sendFails, w.t, e.after, e.missing, e.failed);
    StillBehind(w, s, i, w', s');
  }

  lemma RepeatedTimeoutBehind(w: World, s: State, i: nat, k: nat, w': World) returns (s': State)
    requires Behind(w, s) && Next(w, RepeatTimeout(i, k), w')
    ensures Behind(w', s')
  {
    assert Tracks(w.sent[i], s.orders[i]);
    s' := RepeatedTimeoutSimulatesSaga(s, i, Numbers(w.sent), w.ledger, k, w.t);
    StillBehind(w, s, i, w', s');
  }

  lemma RepeatedBackBehind(w: World, s: State, i: nat, k: nat, w': World) returns (s': State)
    requires Behind(w, s) && Next(w, RepeatBack(i, k), w')
    ensures Behind(w', s')
  {
    assert Tracks(w.sent[i], s.orders[i]);
    s' := RepeatedBackSimulatesSaga(s, i, Numbers(w.sent), w.ledger, k, w.t);
    StillBehind(w, s, i, w', s');
  }

  /** No reached delivery asks for redelivery: the stock rows of a sold order are there. */
  lemma DeliveriesSucceed(w: World, s: State, i: nat, k: nat)
    requires Behind(w, s) && QueuedBack(w, i, k)
    ensures Consumer.Answer(Consumer.Db(w.stock, w.ledger), [AsMessage(w.t.backs[k])]) == ConsumeSuccess
  {
    assert Shows(s.orders[i], Numbers(w.sent)[i], w.t, w.ledger);
    StockIsConserved(true, s);
    assert LinesFine(s.orders[i], s.stock);
  }

  lemma GivenBehind(w: World, s: State, i: nat, k: nat, w': World) returns (s': State)
    requires Behind(w, s) && Next(w, GiveBack(i, k), w')
    ensures Behind(w', s')
  {
    assert Tracks(w.sent[i], s.orders[i]);
    DeliveriesSucceed(w, s, i, k);
    s' := ConsumerSimulatesSaga(s, i, Numbers(w.sent), w.ledger, k, w.t);
    StillBehind(w, s, i, w', s');
  }

  lemma ChangedBehind(w: World, s: State, e: Event, w': World) returns (s': State)
    requires e.ChangeOrderStatus? && Behind(w, s) && ChangesStatus(w, e, w')
    ensures Behind(w', s')
  {
    var i, nos := e.i, Numbers(w.sent);
    assert Tracks(w.sent[i], s.orders[i]) && Shows(s.orders[i], nos[i], w.t, w.ledger);
    assert SafeNow(w, i, e.status) <==> SafeChange(s.orders[i], e.status);
    SameNumbersDistinct(w.t.orders, w'.t.orders);
    s' := StatusChangeSimulatesSaga(s, i, nos, w.ledger, e.id, e.status, w.t, w'.t, e.found);
    StillBehind(w, s, i, w', s');
  }

  lemma RestockedBehind(w: World, s: State, p: int, n: int, w': World) returns (s': State)
    requires Behind(w, s) && Next(w, SetStock(p, n), w')
    ensures Behind(w', s')
  {
    s' := RestockRuns(s, p, n);
  }

  lemma NextBehind(w: World, s: State, e: Event, w': World) returns (s': State)
    requires Behind(w, s) && Next(w, e, w')
    ensures Behind(w', s')
  {
    match e
    case CreateOrder(no, body) => s' := CreatedBehind(w, s, no, body, w');
    case Execute(_, _, _, _, _, _) => s' := ExecutedBehind(w, s, e, w');
    case TakeVerdict(i) => s' := VerdictBehind(w, s, i, w');
    case Die(i) => s' := DiedBehind(w, s, i, w');
    case AskBack(i) => s' := AskedBehind(w, s, i, w');
    case HandleTimeout(_, _, _, _, _, _) => s' := TimedOutBehind(w, s, e, w');
    case RepeatTimeout(i, k) => s' := RepeatedTimeoutBehind(w, s, i, k, w');
    case GiveBack(i, k) => s' := GivenBehind(w, s, i, k, w');
    case RepeatBack(i, k) => s' := RepeatedBackBehind(w, s, i, k, w');
    case ChangeOrderStatus(_, _, _, _) => s' := ChangedBehind(w, s, e, w');
    case SetStock(p, n) => s' := RestockedBehind(w, s, p, n, w');
    case ChangeCart(cart) => s' := s;
  }

  lemma {:induction false} RunsAreBehind(worlds: seq<World>, es: seq<Event>) returns (s: State)
    requires IsRun(worlds, es)
    ensures Behind(worlds[|es|], s)
    decreases |es|
  {
    var n := |es| - 1;
    if es == [] {
      s := State(worlds[0].stock, worlds[0].stock, []);
      assert Exec(true, s, []) == Some(s) && Init(s);
    } else {
      var s0 := RunsAreBehind(worlds[..n + 1], es[..n]);
      s := NextBehind(worlds[n], s0, es[n], worlds[n + 1]);
    }
  }
}
