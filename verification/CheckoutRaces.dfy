/** Checkouts that overlap with cart calls and with each other: what they order and what they clear. */
module CheckoutRaces {
  import opened CartRaces
  import opened Common
  import opened OverlappingAdds
  import opened ShopCart

  /** A checkout that has something to delete orders what it clears, as it would alone, exactly when the account's
      checked rows are those it has read. */
  lemma CheckoutIsSerialIff(s: State, c: nat)
    requires Reachable(s) && !s.moved && Enabled(s, Clear(c)) && CheckedRows(s.t, s.calls[c].account) != map[]
    ensures Serializable(Apply(s, Clear(c))) <==> CheckedRows(s.t, s.calls[c].account) == s.calls[c].rows
  {
    var e := Ordered(s.calls[c].account, s.calls[c].rows);
    ReachableInv(s);
    RunOneMore(s.start, s.log, e);
    OrdersOneMore(s.start, s.log, e);
  }

  /** The step can change the account's rows: one of its own calls writes, or an add writes over one of its rows. */
  ghost predicate Touches(s: State, e: Step, account: int)
    requires Enabled(s, e)
  {
    match e
    case Put(c) =>
      var id := Target(s.t, s.calls[c].req, s.calls[c].found);
      s.calls[c].req.account == account || (id in s.t.rows && s.t.rows[id].account == account)
    case Plain(op) => op.Delete? && op.account == account
    case Clear(c) => s.calls[c].account == account
    case _ => false
  }

  ghost predicate EnabledAt(s: State, es: seq<Step>, k: nat)
    requires k < |es|
  {
    Exec(s, es[..k]).Some? && Enabled(Exec(s, es[..k]).value, es[k])
  }

  ghost predicate NoneTouches(s: State, es: seq<Step>, account: int)
  {
    forall k :: 0 <= k < |es| ==> EnabledAt(s, es, k) && !Touches(Exec(s, es[..k]).value, es[k], account)
  }

  lemma RemovedElsewhere(t: Table, op: Op, account: int)
    requires op.Update? || (op.Delete? && op.account != account) || (op.Checkout? && op.account != account)
    ensures CheckedRows(Effect(t, op), account) == CheckedRows(t, account)
  {
    var t' := Effect(t, op);
    assert forall id :: id in t'.rows ==> id in t.rows && t'.rows[id] == t.rows[id];
    assert forall id :: id in t.rows && Takes(t.rows[id], account) ==> id in t'.rows;
    assert CheckedRows(t', account).Keys == CheckedRows(t, account).Keys;
  }

  lemma UntouchedStaysChecked(s: State, e: Step, account: int)
    requires Inv(s) && Enabled(s, e) && !Touches(s, e, account)
    ensures CheckedRows(Apply(s, e).t, account) == CheckedRows(s.t, account)
  {
    if e.Put? {
      assert CallFine(s.t, s.calls[e.c]);
    } else if e.Plain? {
      RemovedElsewhere(s.t, e.op, account);
    } else if e.Clear? {
      RemovedElsewhere(s.t, Checkout(s.calls[e.c].account), account);
    }
  }

  lemma {:induction false} UntouchedRunsStayChecked(s: State, es: seq<Step>, account: int)
    requires Reachable(s) && NoneTouches(s, es, account)
    ensures Exec(s, es).Some? && CheckedRows(Exec(s, es).value.t, account) == CheckedRows(s.t, account)
  {
    if es != [] {
      var init := es[..|es| - 1];
      forall k | 0 <= k < |init|
        ensures EnabledAt(s, init, k) && !Touches(Exec(s, init[..k]).value, init[k], account)
      {
        assert init[..k] == es[..k] && EnabledAt(s, es, k);
      }
      UntouchedRunsStayChecked(s, init, account);
      ReachableRun(s, init);
      ReachableInv(Exec(s, init).value);
      assert EnabledAt(s, es, |init|);
      UntouchedStaysChecked(Exec(s, init).value, es[|es| - 1], account);
    }
  }

  /** What a checkout has read stays with it. */
  ghost predicate Keeps(call: Call, call': Call)
    requires call.CheckingOut?
  {
    call' == Ended || (call'.CheckingOut? && call'.account == call.account && call'.rows == call.rows)
  }

  lemma {:induction false} CheckoutsKeepTheirRows(s: State, es: seq<Step>, c: nat, m: State)
    requires Exec(s, es) == Some(m) && IsCheckout(s, c)
    ensures c < |m.calls| && Keeps(s.calls[c], m.calls[c])
  {
    if es != [] {
      var init := es[..|es| - 1];
      CheckoutsKeepTheirRows(s, init, c, Exec(s, init).value);
    }
  }

  /** So a checkout during which no other call writes to its account's rows orders exactly what it clears. */
  lemma UntouchedCheckoutOrdersWhatItClears(s: State, account: int, es: seq<Step>, m: State)
    requires Reachable(s) && Enabled(s, ReadChecked(account))
    requires NoneTouches(Apply(s, ReadChecked(account)), es, account)
    requires Exec(Apply(s, ReadChecked(account)), es) == Some(m) && Enabled(m, Clear(|s.calls|))
    ensures m.calls[|s.calls|].account == account
    ensures m.calls[|s.calls|].rows == CheckedRows(m.t, account) != map[]
  {
    var read := Apply(s, ReadChecked(account));
    ReachableStep(s, ReadChecked(account));
    UntouchedRunsStayChecked(read, es, account);
    CheckoutsKeepTheirRows(read, es, |s.calls|, m);
  }

  /** The step saves a checked row of the account. */
  ghost predicate SavesChecked(s: State, e: Step, account: int)
  {
    e.Put? && IsAdding(s, e.c) && s.calls[e.c].req.account == account && s.calls[e.c].req.checked
  }

  lemma OnlySavesCheck(s: State, e: Step, account: int)
    requires Inv(s) && Enabled(s, e) && CheckedRows(s.t, account) == map[] != CheckedRows(Apply(s, e).t, account)
    ensures SavesChecked(s, e, account)
  {
    var t' := Apply(s, e).t;
    var id :| id in CheckedRows(t', account);
    assert id !in CheckedRows(s.t, account);
    if e.Put? {
      assert CallFine(s.t, s.calls[e.c]);
    }
  }

  /** Some step of the run saves a checked row of the account. */
  ghost predicate SomeSave(s: State, es: seq<Step>, account: int)
  {
    exists k :: 0 <= k < |es| && SavesAt(s, es, k, account)
  }

  ghost predicate SavesAt(s: State, es: seq<Step>, k: nat, account: int)
    requires k < |es|
  {
    Exec(s, es[..k]).Some? && SavesChecked(Exec(s, es[..k]).value, es[k], account)
  }

  lemma {:induction false} CheckedNeedsASave(s: State, es: seq<Step>, account: int, m: State)
    requires Reachable(s) && Exec(s, es) == Some(m)
    requires CheckedRows(s.t, account) == map[] != CheckedRows(m.t, account)
    ensures SomeSave(s, es, account)
  {
    var n := |es| - 1;
    var before := Exec(s, es[..n]).value;
    if CheckedRows(before.t, account) != map[] {
      CheckedNeedsASave(s, es[..n], account, before);
      var k :| 0 <= k < n && SavesAt(s, es[..n], k, account);
      assert es[..n][..k] == es[..k];
      assert SavesAt(s, es, k, account);
    } else {
      ReachableRun(s, es[..n]);
      ReachableInv(before);
      OnlySavesCheck(before, es[n], account);
      assert SavesAt(s, es, n, account);
    }
  }

  lemma ClearLeavesNothing(s: State, c: nat)
    requires Enabled(s, Clear(c))
    ensures CheckedRows(Apply(s, Clear(c)).t, s.calls[c].account) == map[]
  {
    var a, t' := s.calls[c].account, Apply(s, Clear(c)).t;
    assert CheckedRows(s.t, a) == map[] ==> t' == s.t;
    assert forall id :: id in t'.rows && Takes(t'.rows[id], a) ==> id in CheckedRows(s.t, a) && t' == s.t;
    assert CheckedRows(t', a).Keys == {};
  }

  /** Of two overlapping checkouts of an account, the one that deletes second creates an order exactly when it finds a
      checked row, and it only does when one of the account's adds has saved a checked row since the first delete. */
  lemma SecondCheckoutOrdersIff(s: State, b: nat, es: seq<Step>, c: nat, m: State)
    requires Reachable(s) && Enabled(s, Clear(b)) && Exec(Apply(s, Clear(b)), es) == Some(m)
    requires Enabled(m, Clear(c)) && m.calls[c].account == s.calls[b].account
    ensures var a, found := s.calls[b].account, CheckedRows(m.t, s.calls[b].account) != map[];
            && Apply(m, Clear(c)).log == m.log + (if found then [Ordered(a, m.calls[c].rows)] else [])
            && (found ==> SomeSave(Apply(s, Clear(b)), es, a))
  {
    ClearLeavesNothing(s, b);
    ReachableStep(s, Clear(b));
    if CheckedRows(m.t, s.calls[b].account) != map[] {
      CheckedNeedsASave(Apply(s, Clear(b)), es, s.calls[b].account, m);
    }
  }

  // ----- checkouts that go wrong -----

  /** A delete that finds something: the order is for what was read. */
  lemma Clears(s: State, c: nat) returns (s': State)
    requires Reachable(s) && Enabled(s, Clear(c)) && CheckedRows(s.t, s.calls[c].account) != map[]
    ensures Reachable(s') && s'.log == s.log + [Ordered(s.calls[c].account, s.calls[c].rows)]
    ensures s'.t == Effect(s.t, Checkout(s.calls[c].account)) && s'.calls == s.calls[c := Ended]
    ensures CheckedRows(s'.t, s.calls[c].account) == map[]
  {
    ReachableStep(s, Clear(c));
    s' := Apply(s, Clear(c));
    ClearLeavesNothing(s, c);
  }

  lemma StaysUnlisted(t: Table, account: int, product: int)
    requires !Listed(t, account, product)
    ensures !Listed(Effect(t, Checkout(account)), account, product)
  {
    var t' := Effect(t, Checkout(account));
    forall id | id in t'.rows ensures !Has(t'.rows[id], account, product) {
      assert t.rows[id] == t'.rows[id];
    }
  }

  lemma AddedIsCleared(t: Table, req: Request)
    requires !Listed(t, req.account, req.product) && req.checked
    ensures var t' := Saved(t, req, None);
            && CheckedRows(t', req.account) != map[]
            && !Listed(Effect(t', Checkout(req.account)), req.account, req.product)
  {
    var t' := Saved(t, req, None);
    assert Target(t, req, None) in CheckedRows(t', req.account);
    var end := Effect(t', Checkout(req.account));
    forall id | id in end.rows ensures !Has(end.rows[id], req.account, req.product) {
      assert end.rows[id] == t'.rows[id];
    }
  }

  /** Wherever two checkouts of an account have both sold what they read, an add between their deletes lets both create
      an order. What both have read is ordered twice, and the added row is cleared without being ordered. */
  lemma OverlappingCheckoutsOrderTwice(s: State, b: nat, c: nat, req: Request) returns (s': State)
    requires Reachable(s) && b != c && Enabled(s, Clear(b)) && Enabled(s, Clear(c))
    requires s.calls[b].account == s.calls[c].account == req.account && CheckedRows(s.t, req.account) != map[]
    requires req.checked && !Listed(s.t, req.account, req.product)
    ensures Reachable(s') && CheckedRows(s'.t, req.account) == map[] && !Listed(s'.t, req.account, req.product)
    ensures s'.log == s.log + [Ordered(req.account, s.calls[b].rows)] + [Called(Add(req))] +
                      [Ordered(req.account, s.calls[c].rows)]
  {
    s' := Clears(s, b);
    StaysUnlisted(s.t, req.account, req.product);
    AddedIsCleared(s'.t, req);
    s' := AddsNew(s', req);
    s' := Clears(s', c);
  }

  /** Two checkouts of one row that have both sold it. */
  lemma BothSold() returns (s: State)
    ensures Reachable(s) && |s.calls| == 3 && s.t == Table(map[1 := RowOf(1, 1)], 2)
    ensures s.calls[1] == s.calls[2] == CheckingOut(7, map[1 := RowOf(1, 1)], true)
    ensures CheckedRows(s.t, 7) == map[1 := RowOf(1, 1)]
  {
    s := OneRow();
    assert CheckedRows(s.t, 7) == map[1 := RowOf(1, 1)] && 1 in CheckedRows(s.t, 7);
    ReachableStep(s, ReadChecked(7));
    s := Apply(s, ReadChecked(7));
    ReachableStep(s, ReadChecked(7));
    s := Apply(s, ReadChecked(7));
    ReachableStep(s, Sold(1));
    s := Apply(s, Sold(1));
    ReachableStep(s, Sold(2));
    s := Apply(s, Sold(2));
  }

  /** The losing run from the start: product 1 is ordered twice and product 2 vanishes from the cart. */
  lemma OneRowOrderedTwice() returns (s: State)
    ensures Reachable(s) && CheckedRows(s.t, 7) == map[] && !Listed(s.t, 7, 2)
    ensures |s.log| >= 3
    ensures s.log[|s.log| - 3..] == [Ordered(7, map[1 := RowOf(1, 1)]), Called(Add(One(2))),
                                     Ordered(7, map[1 := RowOf(1, 1)])]
  {
    s := BothSold();
    assert 1 in CheckedRows(s.t, 7);
    s := OverlappingCheckoutsOrderTwice(s, 1, 2, One(2));
  }
}
