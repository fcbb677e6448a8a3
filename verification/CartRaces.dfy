/** The cart service's calls and checkouts when they overlap. AddShopCartItem looks its row up and saves it with neither
    lock nor transaction in between. A checkout reads the account's checked rows, sells them by a remote call, and then
    deletes whatever the account has checked by that time. Every such part is one step, in any interleaving of any
    number of calls; a checkout's delete and its commit are one step, because the deleted rows are locked in between. */
module CartRaces {
  import opened Common
  import Purchase = Checkout
  import Quantities
  import opened ShopCart

  datatype Found = Found(id: int, row: CartRow)

  /** A call that has begun. `rows` are the checked rows a checkout has read, by id. */
  datatype Call =
    | Adding(req: Request, found: Option<Found>)
    | CheckingOut(account: int, rows: map<int, CartRow>, sold: bool)
    | Ended

  /** What calls have done: one of the cart service's calls, or a checkout that ordered the rows it had read. */
  datatype Entry = Called(op: Op) | Ordered(account: int, rows: map<int, CartRow>)

  /** `log` records calls in the order in which they wrote. History: `doubled` says that some save was of a second row
      for its account and product, `moved` that some save or checkout did not find what it had read. */
  datatype State = State(start: Table, t: Table, calls: seq<Call>, log: seq<Entry>, doubled: bool, moved: bool)

  datatype Step =
    | Look(req: Request, found: Option<Found>)  // the query of AddShopCartItem
    | Put(c: nat)                               // its Save
    | Plain(op: Op)                             // UpdateShopCartItem and DeleteShopCart, one statement each
    | ReadChecked(account: int)                 // the query of a checkout
    | Sold(c: nat)                              // its Sell call has succeeded
    | Clear(c: nat)                             // its delete and commit, or a rollback if there is nothing to delete
    | Leave(c: nat)                             // a call ends early: refused, failed or crashed

  /** What the query finds: the row with the lowest id, if there is one. */
  ghost predicate Finds(t: Table, req: Request, found: Option<Found>)
  {
    if found.None? then !Listed(t, req.account, req.product)
    else
      var f := found.value;
      && f.id in t.rows && t.rows[f.id] == f.row && Has(f.row, req.account, req.product)
      && forall id :: id in t.rows && Has(t.rows[id], req.account, req.product) ==> f.id <= id
  }

  /** The id under which the save writes. */
  function Target(t: Table, req: Request, found: Option<Found>): int
  {
    if found.Some? then found.value.id else if req.id > 0 then req.id else t.nextId
  }

  /** The save: the row as it was found, changed, or a new one. */
  function Saved(t: Table, req: Request, found: Option<Found>): Table
  {
    Save(t, Target(t, req, found),
         if found.Some? then found.value.row.(num := found.value.row.num + req.num, checked := req.checked)
         else CartRow(req.account, req.product, req.num, req.checked))
  }

  predicate Takes(row: CartRow, account: int) { row.account == account && row.checked }

  function CheckedRows(t: Table, account: int): map<int, CartRow>
  {
    map id | id in t.rows && Takes(t.rows[id], account) :: t.rows[id]
  }

  /** Every row of the account and product already has the id that is being written. */
  ghost predicate Fits(t: Table, req: Request, found: Option<Found>)
  {
    forall id :: id in t.rows && Has(t.rows[id], req.account, req.product) ==> id == Target(t, req, found)
  }

  function NumSeen(found: Option<Found>): int { if found.Some? then found.value.row.num else 0 }

  ghost function NumNow(t: Table, account: int, product: int): int
  {
    if Listed(t, account, product) then t.rows[IdOf(t, account, product)].num else 0
  }

  /** What was found is what is there now: the same id to write, and the same quantity under it. */
  ghost predicate AsFound(t: Table, req: Request, found: Option<Found>)
  {
    Target(t, req, found) == SavedId(t, req) && NumSeen(found) == NumNow(t, req.account, req.product)
  }

  predicate IsAdding(s: State, c: nat) { c < |s.calls| && s.calls[c].Adding? }

  predicate IsCheckout(s: State, c: nat) { c < |s.calls| && s.calls[c].CheckingOut? }

  ghost predicate Enabled(s: State, e: Step)
  {
    match e
    case Look(req, found) => Finds(s.t, req, found)
    case Put(c) => IsAdding(s, c)
    case Plain(op) => op.Update? || op.Delete?
    case ReadChecked(a) => CheckedRows(s.t, a) != map[]
    case Sold(c) => IsCheckout(s, c) && !s.calls[c].sold
    case Clear(c) => IsCheckout(s, c) && s.calls[c].sold
    case Leave(c) => c < |s.calls|
  }

  function End(s: State, c: nat): State
    requires c < |s.calls|
  {
    s.(calls := s.calls[c := Ended])
  }

  ghost function Apply(s: State, e: Step): State
    requires Enabled(s, e)
  {
    match e
    case Look(req, found) => s.(calls := s.calls + [Adding(req, found)])
    case Put(c) =>
      var req, found := s.calls[c].req, s.calls[c].found;
      End(s, c).(t := Saved(s.t, req, found), log := s.log + [Called(Add(req))],
                 doubled := s.doubled || !Fits(s.t, req, found), moved := s.moved || !AsFound(s.t, req, found))
    case Plain(op) => s.(t := Effect(s.t, op), log := s.log + [Called(op)])
    case ReadChecked(a) => s.(calls := s.calls + [CheckingOut(a, CheckedRows(s.t, a), false)])
    case Sold(c) => s.(calls := s.calls[c := s.calls[c].(sold := true)])
    case Clear(c) =>
      var a, rows := s.calls[c].account, s.calls[c].rows;
      if CheckedRows(s.t, a) == map[] then End(s, c)
      else End(s, c).(t := Effect(s.t, Checkout(a)), log := s.log + [Ordered(a, rows)],
                      moved := s.moved || CheckedRows(s.t, a) != rows)
    case Leave(c) => End(s, c)
  }

  ghost function Exec(s: State, es: seq<Step>): Option<State>
  {
    if es == [] then Some(s)
    else
      match Exec(s, es[..|es| - 1])
      case None => None
      case Some(m) => if Enabled(m, es[|es| - 1]) then Some(Apply(m, es[|es| - 1])) else None
  }

  ghost predicate Init(s: State)
  {
    Valid(s.start) && s.t == s.start && s.calls == [] && s.log == [] && !s.doubled && !s.moved
  }

  ghost predicate Reachable(s: State)
  {
    exists s0, es :: Init(s0) && Exec(s0, es) == Some(s)
  }

  // ----- the serial meaning of a log -----

  function OpOf(e: Entry): Op
  {
    match e
    case Called(op) => op
    case Ordered(a, _) => Checkout(a)
  }

  function Ops(log: seq<Entry>): (ops: seq<Op>)
    ensures |ops| == |log| && forall k :: 0 <= k < |log| ==> ops[k] == OpOf(log[k])
  {
    seq(|log|, k requires 0 <= k < |log| => OpOf(log[k]))
  }

  /** Entry k, if it is an order, is for exactly the rows that were checked when its turn came. */
  ghost predicate OrdersWhatItClears(start: Table, log: seq<Entry>, k: nat)
    requires k < |log|
  {
    log[k].Ordered? ==> log[k].rows == CheckedRows(Run(start, Ops(log[..k])), log[k].account)
  }

  /** The table is what the calls leave when they run whole, one after another in log order, and each order is for the
      rows that its own checkout clears in that run. */
  ghost predicate Serializable(s: State)
  {
    && s.t == Run(s.start, Ops(s.log))
    && forall k :: 0 <= k < |s.log| ==> OrdersWhatItClears(s.start, s.log, k)
  }

  lemma RunOneMore(start: Table, log: seq<Entry>, e: Entry)
    ensures Run(start, Ops(log + [e])) == Effect(Run(start, Ops(log)), OpOf(e))
  {
    assert Ops(log + [e])[..|log|] == Ops(log);
  }

  lemma OrdersOneMore(start: Table, log: seq<Entry>, e: Entry)
    ensures (forall k :: 0 <= k < |log + [e]| ==> OrdersWhatItClears(start, log + [e], k)) <==>
            (forall k :: 0 <= k < |log| ==> OrdersWhatItClears(start, log, k)) &&
            (e.Ordered? ==> e.rows == CheckedRows(Run(start, Ops(log)), e.account))
  {
    var more := log + [e];
    assert more[..|log|] == log;
    forall k | 0 <= k < |log| ensures OrdersWhatItClears(start, more, k) <==> OrdersWhatItClears(start, log, k) {
      assert more[..k] == log[..k];
    }
    assert OrdersWhatItClears(start, more, |log|) <==>
           (e.Ordered? ==> e.rows == CheckedRows(Run(start, Ops(log)), e.account));
  }

  // ----- one save -----

  /** A save does what the whole call would do at that moment exactly when what it found is what is there now. */
  lemma SaveIsWholeAddIff(t: Table, req: Request, found: Option<Found>)
    requires Valid(t) && (found.Some? ==> Has(found.value.row, req.account, req.product))
    ensures Saved(t, req, found) == Effect(t, Add(req)) <==> AsFound(t, req, found)
  {
    var put, whole := Saved(t, req, found), Effect(t, Add(req));
    var id, now := Target(t, req, found), SavedId(t, req);
    assert put.rows[id] == CartRow(req.account, req.product, NumSeen(found) + req.num, req.checked);
    assert whole.rows[now] ==
           CartRow(req.account, req.product, NumNow(t, req.account, req.product) + req.num, req.checked);
    if put == whole && id != now {
      assert put.rows[now] == whole.rows[now];
      assert now in t.rows && Has(t.rows[now], req.account, req.product);
      assert whole.rows[id] == put.rows[id];
      assert id in t.rows && Has(t.rows[id], req.account, req.product);
      assert false;
    }
  }

  /** A save keeps one row per account and product exactly when every row of its account and product already has the id
      that it writes. */
  lemma SaveKeepsValidIff(t: Table, req: Request, found: Option<Found>)
    requires Valid(t)
    requires found.Some? ==> 0 < found.value.id < t.nextId && Has(found.value.row, req.account, req.product)
    ensures Valid(Saved(t, req, found)) <==> Fits(t, req, found)
  {
    var put, id := Saved(t, req, found), Target(t, req, found);
    assert Has(put.rows[id], req.account, req.product);
    if !Fits(t, req, found) {
      var other :| other in t.rows && Has(t.rows[other], req.account, req.product) && other != id;
      assert put.rows[other] == t.rows[other];
    }
  }

  // ----- the invariant -----

  ghost predicate CallFine(t: Table, call: Call)
  {
    call.Adding? && call.found.Some? ==>
      0 < call.found.value.id < t.nextId && Has(call.found.value.row, call.req.account, call.req.product)
  }

  ghost predicate Inv(s: State)
  {
    && s.t.nextId > 0 && (forall id :: id in s.t.rows ==> 0 < id < s.t.nextId)
    && (forall c :: 0 <= c < |s.calls| ==> CallFine(s.t, s.calls[c]))
    && (!s.doubled ==> Valid(s.t))
    && (!s.moved ==> Serializable(s) && !s.doubled)
  }

  lemma PutKeeps(s: State, c: nat)
    requires Inv(s) && Enabled(s, Put(c))
    ensures Inv(Apply(s, Put(c)))
  {
    var s', req, found := Apply(s, Put(c)), s.calls[c].req, s.calls[c].found;
    assert CallFine(s.t, s.calls[c]);
    if !s'.doubled {
      SaveKeepsValidIff(s.t, req, found);
    }
    if !s'.moved {
      SaveIsWholeAddIff(s.t, req, found);
      RunOneMore(s.start, s.log, Called(Add(req)));
      OrdersOneMore(s.start, s.log, Called(Add(req)));
    }
  }

  lemma PlainKeeps(s: State, op: Op)
    requires Inv(s) && Enabled(s, Plain(op))
    ensures Inv(Apply(s, Plain(op)))
  {
    RunOneMore(s.start, s.log, Called(op));
    OrdersOneMore(s.start, s.log, Called(op));
  }

  lemma ClearKeeps(s: State, c: nat)
    requires Inv(s) && Enabled(s, Clear(c))
    ensures Inv(Apply(s, Clear(c)))
  {
    var e := Ordered(s.calls[c].account, s.calls[c].rows);
    RunOneMore(s.start, s.log, e);
    OrdersOneMore(s.start, s.log, e);
  }

  lemma StepKeeps(s: State, e: Step)
    requires Inv(s) && Enabled(s, e)
    ensures Inv(Apply(s, e))
  {
    match e
    case Put(c) => PutKeeps(s, c);
    case Plain(op) => PlainKeeps(s, op);
    case Clear(c) => ClearKeeps(s, c);
    case _ =>
  }

  lemma {:induction false} RunKeeps(s0: State, es: seq<Step>)
    requires Init(s0) && Exec(s0, es).Some?
    ensures Inv(Exec(s0, es).value)
  {
    if es != [] {
      RunKeeps(s0, es[..|es| - 1]);
      StepKeeps(Exec(s0, es[..|es| - 1]).value, es[|es| - 1]);
    } else {
      assert s0.t == Run(s0.start, Ops(s0.log));
    }
  }

  lemma ReachableInv(s: State)
    requires Reachable(s)
    ensures Inv(s)
  {
    var s0, es :| Init(s0) && Exec(s0, es) == Some(s);
    RunKeeps(s0, es);
  }

  lemma {:induction false} ReachableRun(s: State, es: seq<Step>)
    requires Reachable(s) && Exec(s, es).Some?
    ensures Reachable(Exec(s, es).value)
  {
    var s0, es0 :| Init(s0) && Exec(s0, es0) == Some(s);
    ExecConcat(s0, es0, es);
  }

  lemma {:induction false} ExecConcat(s: State, a: seq<Step>, b: seq<Step>)
    requires Exec(s, a).Some?
    ensures Exec(s, a + b) == Exec(Exec(s, a).value, b)
  {
    if b == [] {
      assert a + b == a;
    } else {
      assert (a + b)[..|a + b| - 1] == a + b[..|b| - 1];
      ExecConcat(s, a, b[..|b| - 1]);
    }
  }

  lemma ReachableStep(s: State, e: Step)
    requires Reachable(s) && Enabled(s, e)
    ensures Reachable(Apply(s, e))
  {
    assert Exec(s, []) == Some(s) && [e][..0] == [];
    assert Exec(s, [e]) == Some(Apply(s, e));
    ReachableRun(s, [e]);
  }

  /** An add of a product that the table does not list, run without interruption. */
  lemma AddsNew(s: State, req: Request) returns (s': State)
    requires Reachable(s) && !Listed(s.t, req.account, req.product)
    ensures Reachable(s') && s'.start == s.start && s'.log == s.log + [Called(Add(req))]
    ensures s'.calls == s.calls + [Ended]
    ensures s'.t == Saved(s.t, req, None)
  {
    ReachableStep(s, Look(req, None));
    s' := Apply(s, Look(req, None));
    ReachableStep(s', Put(|s.calls|));
    s' := Apply(s', Put(|s.calls|));
  }
}
