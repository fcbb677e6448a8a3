/** When a row's transaction goes on and when it gives up, and what an operation that runs alone can commit. */
module RowVerdicts {
  import opened Common
  import opened Quantities
  import opened RowLocks
  import StockService

  // ----- one step, whatever runs beside it -----

  /** A sale gives up at a row exactly when the committed stock cannot serve that position after the ones before it;
      otherwise it has read what is left. */
  lemma LockEndsIff(counting: Counting, s: State, t: nat)
    requires Reachable(counting, s) && Enabled(s, LockRow(t))
    ensures var tx, tx' := s.txs[t], Apply(counting, s, LockRow(t)).txs[t];
            var p := tx.lines[tx.next].product;
            && (tx'.Ended? <==> !Enough(s.db.stock, tx.lines, tx.next))
            && (!tx'.Ended? ==>
                  tx' == SellTx(tx.order, tx.lines, tx.next, tx'.read, tx'.view) && tx'.read.Some? &&
                  tx'.read.value.num == s.db.stock[p] - Total(tx.lines[..tx.next], p))
  {
    ReachableInv(counting, s);
    var tx := s.txs[t];
    var p := tx.lines[tx.next].product;
    assert TxFine(counting, s.db, tx);
    TotalStep(tx.lines, tx.next, p);
    if p !in tx.view {
      TotalAbsent(tx.lines[..tx.next], p);
    }
  }

  /** An update that follows never gives up, and takes the position's quantity from what is seen of the row. */
  lemma UpdateTakes(counting: Counting, s: State, t: nat)
    requires Reachable(counting, s) && Enabled(s, UpdateRow(t))
    ensures var tx, tx' := s.txs[t], Apply(counting, s, UpdateRow(t)).txs[t];
            var item := tx.lines[tx.next];
            && tx' == SellTx(tx.order, tx.lines, tx.next + 1, None, tx'.view)
            && item.product in s.db.stock && item.product in tx'.view
            && tx'.view[item.product] == s.db.stock[item.product] - Total(tx.lines[..tx.next + 1], item.product)
            && forall p :: p != item.product ==> (p in tx'.view <==> p in tx.view) &&
                                                 (p in tx.view ==> tx'.view[p] == tx.view[p])
  {
    ReachableInv(counting, s);
    var tx := s.txs[t];
    assert TxFine(counting, s.db, tx);
    TotalStep(tx.lines, tx.next, tx.lines[tx.next].product);
  }

  /** A return gives up at a row exactly when there is none, and an addition too. */
  lemma MissingRowsEnd(counting: Counting, s: State, t: nat)
    requires Reachable(counting, s)
    ensures Enabled(s, AddToRow(t)) ==>
              (Apply(counting, s, AddToRow(t)).txs[t].Ended? <==>
               s.txs[t].lines[s.txs[t].next].product !in s.db.stock)
    ensures Enabled(s, ReadRow(t)) ==>
              (Apply(counting, s, ReadRow(t)).txs[t].Ended? <==>
               s.txs[t].lines[s.txs[t].next].product !in s.db.stock)
  {
    ReachableInv(counting, s);
  }

  lemma {:induction false} StartStays(counting: Counting, s0: State, es: seq<Step>)
    requires Exec(counting, s0, es).Some?
    ensures Exec(counting, s0, es).value.start == s0.start
  {
    if es != [] {
      StartStays(counting, s0, es[..|es| - 1]);
    }
  }

  lemma GivenBackAfter(ledger: LedgerTable, e: Entry, order: string)
    requires LedgerAfter(ledger, e).Some?
    ensures var after := LedgerAfter(ledger, e).value;
            order in after && after[order].status.HasBack? <==>
            (order in ledger && ledger[order].status.HasBack?) || e == GivenBack(order)
  {
  }

  lemma {:induction false} GivenBackIffLogged(log: seq<Entry>, order: string)
    requires LedgerReplay(map[], log).Some?
    ensures var ledger := LedgerReplay(map[], log).value;
            order in ledger && ledger[order].status.HasBack? <==> GivenBack(order) in log
  {
    if log != [] {
      var init, last := log[..|log| - 1], log[|log| - 1];
      GivenBackIffLogged(init, order);
      GivenBackAfter(LedgerReplay(map[], init).value, last, order);
      assert GivenBack(order) in log <==> GivenBack(order) in init || last == GivenBack(order) by {
        assert log == init + [last];
      }
    }
  }

  lemma LedgerSaysGivenBack(s: State, order: string)
    requires Reachable(ChangedRows, s)
    ensures order in s.db.ledger && s.db.ledger[order].status.HasBack? <==> GivenBack(order) in s.log
  {
    var s0, es :| Init(s0) && Exec(ChangedRows, s0, es) == Some(s);
    StartStays(ChangedRows, s0, es);
    ReachableInv(ChangedRows, s);
    GivenBackIffLogged(s.log, order);
  }

  /** A return that has reached the ledger gives up exactly when the order's return is committed already. */
  lemma FlipEndsIff(s: State, t: nat)
    requires Reachable(ChangedRows, s) && Enabled(s, FlipLedger(t))
    ensures Apply(ChangedRows, s, FlipLedger(t)).txs[t].Ended? <==> GivenBack(s.txs[t].order) in s.log
  {
    LedgerSaysGivenBack(s, s.txs[t].order);
  }

  // ----- alone -----

  predicate JustBegun(tx: Tx)
  {
    match tx
    case SellTx(_, _, next, read, view) => next == 0 && read == None && view == map[]
    case BackTx(_, _, next, flipped, view) => next == 0 && !flipped && view == map[]
    case SaveTx(_, next, read, base, _, view) => next == 0 && read == None && base == map[] && view == map[]
    case Ended(_) => false
  }

  /** Transaction t has just begun, and no other transaction holds a row. */
  ghost predicate StartsAlone(s: State, t: nat)
  {
    t < |s.txs| && JustBegun(s.txs[t]) && forall u :: 0 <= u < |s.txs| && u != t ==> s.txs[u].view == map[]
  }

  /** A step of transaction t other than its commit or abort. */
  predicate Own(e: Step, t: nat)
  {
    || e == LockRow(t) || e == UpdateRow(t)
    || e == AddToRow(t) || e == FlipLedger(t)
    || e == ReadRow(t) || e == SaveRow(t)
  }

  /** From s, transaction t alone can get to m. */
  ghost predicate RunsAloneTo(counting: Counting, s: State, t: nat, m: State)
  {
    exists es :: Exec(counting, s, es) == Some(m) && forall k :: 0 <= k < |es| ==> Own(es[k], t)
  }

  /** Transaction t alone can get to where this step is possible. */
  ghost predicate CanGetTo(counting: Counting, s: State, t: nat, e: Step)
  {
    exists m :: RunsAloneTo(counting, s, t, m) && Enabled(m, e)
  }

  /** What transaction t alone leaves as it is, and what stays of its own. */
  ghost predicate OnlyMoves(s: State, t: nat, m: State)
  {
    && t < |s.txs| == |m.txs| && m == s.(txs := m.txs)
    && (forall u :: 0 <= u < |s.txs| && u != t ==> m.txs[u] == s.txs[u])
    && (m.txs[t].SellTx? ==> s.txs[t].SellTx? && m.txs[t].order == s.txs[t].order && m.txs[t].lines == s.txs[t].lines)
    && (m.txs[t].BackTx? ==> s.txs[t].BackTx? && m.txs[t].order == s.txs[t].order && m.txs[t].lines == s.txs[t].lines)
    && (m.txs[t].SaveTx? ==> s.txs[t].SaveTx? && m.txs[t].lines == s.txs[t].lines)
  }

  lemma OwnStepMoves(counting: Counting, s: State, t: nat, e: Step)
    requires Enabled(s, e) && Own(e, t)
    ensures t < |s.txs| && OnlyMoves(s, t, Apply(counting, s, e))
  {
  }

  lemma {:induction false} OwnStepsMove(counting: Counting, s: State, t: nat, es: seq<Step>)
    requires t < |s.txs| && Exec(counting, s, es).Some? && forall k :: 0 <= k < |es| ==> Own(es[k], t)
    ensures OnlyMoves(s, t, Exec(counting, s, es).value)
  {
    if es != [] {
      var init, e := es[..|es| - 1], es[|es| - 1];
      assert forall k :: 0 <= k < |init| ==> init[k] == es[k];
      OwnStepsMove(counting, s, t, init);
      OwnStepMoves(counting, Exec(counting, s, init).value, t, e);
    }
  }

  lemma {:induction false} RunStaysReachable(counting: Counting, s: State, es: seq<Step>)
    requires Reachable(counting, s) && Exec(counting, s, es).Some?
    ensures Reachable(counting, Exec(counting, s, es).value)
  {
    if es != [] {
      RunStaysReachable(counting, s, es[..|es| - 1]);
      var m := Do(counting, Exec(counting, s, es[..|es| - 1]).value, es[|es| - 1]);
    }
  }

  lemma AloneMoves(counting: Counting, s: State, t: nat, m: State)
    requires Reachable(counting, s) && t < |s.txs| && RunsAloneTo(counting, s, t, m)
    ensures Reachable(counting, m) && OnlyMoves(s, t, m)
  {
    var es :| Exec(counting, s, es) == Some(m) && forall k :: 0 <= k < |es| ==> Own(es[k], t);
    RunStaysReachable(counting, s, es);
    OwnStepsMove(counting, s, t, es);
  }

  lemma AloneStays(counting: Counting, s: State, t: nat)
    ensures RunsAloneTo(counting, s, t, s)
  {
    assert Exec(counting, s, []) == Some(s);
  }

  lemma ExecOneMore(counting: Counting, s: State, es: seq<Step>, m: State, e: Step)
    requires Exec(counting, s, es) == Some(m) && Enabled(m, e)
    ensures Exec(counting, s, es + [e]) == Some(Apply(counting, m, e))
  {
    assert (es + [e])[..|es|] == es && (es + [e])[|es|] == e;
  }

  lemma AloneGoesOn(counting: Counting, s: State, t: nat, m: State, e: Step)
    requires RunsAloneTo(counting, s, t, m) && Enabled(m, e) && Own(e, t)
    ensures RunsAloneTo(counting, s, t, Apply(counting, m, e))
  {
    var es :| Exec(counting, s, es) == Some(m) && forall k :: 0 <= k < |es| ==> Own(es[k], t);
    ExecOneMore(counting, s, es, m, e);
    assert forall k :: 0 <= k < |es + [e]| ==> Own((es + [e])[k], t);
  }

  /** One position of a sale that runs alone. */
  lemma SellPosition(counting: Counting, s: State, t: nat, m: State) returns (m': State)
    requires Reachable(counting, s) && t < |s.txs| && RunsAloneTo(counting, s, t, m)
    requires forall u :: 0 <= u < |s.txs| && u != t ==> s.txs[u].view == map[]
    requires IsSell(m, t) && m.txs[t].read.None? && m.txs[t].next < |m.txs[t].lines|
    requires Enough(s.db.stock, m.txs[t].lines, m.txs[t].next)
    ensures RunsAloneTo(counting, s, t, m') && IsSell(m', t)
    ensures m'.txs[t].read.None? && m'.txs[t].next == m.txs[t].next + 1
  {
    AloneMoves(counting, s, t, m);
    assert Enabled(m, LockRow(t));
    LockEndsIff(counting, m, t);
    var locked := Apply(counting, m, LockRow(t));
    AloneGoesOn(counting, s, t, m, LockRow(t));
    AloneMoves(counting, s, t, locked);
    assert Enabled(locked, UpdateRow(t));
    UpdateTakes(counting, locked, t);
    AloneGoesOn(counting, s, t, locked, UpdateRow(t));
    m' := Apply(counting, locked, UpdateRow(t));
  }

  lemma {:induction false} SellPositions(counting: Counting, s: State, t: nat, n: nat) returns (m: State)
    requires Reachable(counting, s) && IsSell(s, t) && StartsAlone(s, t)
    requires Sellable(s.db.stock, s.txs[t].lines) && n <= |s.txs[t].lines|
    ensures RunsAloneTo(counting, s, t, m) && IsSell(m, t) && m.txs[t].read.None? && m.txs[t].next == n
  {
    if n == 0 {
      AloneStays(counting, s, t);
      return s;
    }
    var before := SellPositions(counting, s, t, n - 1);
    AloneMoves(counting, s, t, before);
    m := SellPosition(counting, s, t, before);
  }

  lemma SaleAloneNeeds(counting: Counting, s: State, t: nat, m: State)
    requires Reachable(counting, s) && IsSell(s, t) && RunsAloneTo(counting, s, t, m) && Enabled(m, CommitSell(t))
    ensures Sellable(s.db.stock, s.txs[t].lines)
  {
    AloneMoves(counting, s, t, m);
    ReachableInv(counting, m);
    assert TxFine(counting, m.db, m.txs[t]);
  }

  /** What a sale that ran alone commits. */
  lemma SaleAloneTakes(counting: Counting, s: State, t: nat, m: State)
    requires Reachable(counting, s) && IsSell(s, t) && StartsAlone(s, t)
    requires RunsAloneTo(counting, s, t, m) && Enabled(m, CommitSell(t))
    ensures Apply(counting, m, CommitSell(t)).db ==
            Db(Subtract(s.db.stock, s.txs[t].lines), s.db.versions,
               s.db.ledger[s.txs[t].order := StockItemDetail(HasSell, s.txs[t].lines)])
  {
    AloneMoves(counting, s, t, m);
    ReachableInv(counting, m);
    assert TxFine(counting, m.db, m.txs[t]);
    var lines := s.txs[t].lines;
    assert lines[..|lines|] == lines;
    OverlayIsTotals(s.db.stock, lines, m.txs[t].view, -1);
  }

  /** A sale that runs while nobody else holds a row can commit exactly when the committed stock serves its list. */
  lemma SaleAloneCommitsIff(counting: Counting, s: State, t: nat)
    requires Reachable(counting, s) && IsSell(s, t) && StartsAlone(s, t)
    ensures Sellable(s.db.stock, s.txs[t].lines) <==> CanGetTo(counting, s, t, CommitSell(t))
  {
    if m :| RunsAloneTo(counting, s, t, m) && Enabled(m, CommitSell(t)) {
      SaleAloneNeeds(counting, s, t, m);
    }
    if Sellable(s.db.stock, s.txs[t].lines) {
      var m := SellPositions(counting, s, t, |s.txs[t].lines|);
      AloneMoves(counting, s, t, m);
      assert Enabled(m, CommitSell(t));
    }
  }

  lemma {:induction false} BackPositions(counting: Counting, s: State, t: nat, n: nat) returns (m: State)
    requires Reachable(counting, s) && IsBack(s, t) && StartsAlone(s, t)
    requires AllListed(s.db.stock, s.txs[t].lines) && n <= |s.txs[t].lines|
    ensures RunsAloneTo(counting, s, t, m) && IsBack(m, t) && !m.txs[t].flipped && m.txs[t].next == n
  {
    if n == 0 {
      AloneStays(counting, s, t);
      return s;
    }
    var before := BackPositions(counting, s, t, n - 1);
    AloneMoves(counting, s, t, before);
    assert Enabled(before, AddToRow(t));
    AloneGoesOn(counting, s, t, before, AddToRow(t));
    m := Apply(counting, before, AddToRow(t));
  }

  /** What a return that ran alone commits. */
  lemma ReturnAloneAdds(counting: Counting, s: State, t: nat, m: State)
    requires Reachable(counting, s) && IsBack(s, t) && RunsAloneTo(counting, s, t, m) && Enabled(m, CommitBack(t))
    ensures AllListed(s.db.stock, s.txs[t].lines)
    ensures var order, lines := s.txs[t].order, s.txs[t].lines;
            && order in s.db.ledger && s.db.ledger[order].details == lines
            && Apply(counting, m, CommitBack(t)).db ==
               Db(Add(s.db.stock, lines), s.db.versions, s.db.ledger[order := StockItemDetail(HasBack, lines)])
  {
    AloneMoves(counting, s, t, m);
    ReachableInv(counting, m);
    assert TxFine(counting, m.db, m.txs[t]);
    var lines := s.txs[t].lines;
    assert lines[..|lines|] == lines;
    OverlayIsTotals(s.db.stock, lines, m.txs[t].view, 1);
  }

  /** A return that runs while nobody else holds a row, nor its order's ledger row, can commit exactly when every
      product has a row and its order has not been given back since it began. */
  lemma ReturnAloneCommitsIff(counting: Counting, s: State, t: nat)
    requires Reachable(counting, s) && IsBack(s, t) && StartsAlone(s, t) && LedgerFree(s, t, s.txs[t].order)
    ensures AllListed(s.db.stock, s.txs[t].lines) &&
            (counting == ChangedRows ==> GivenBack(s.txs[t].order) !in s.log) <==>
            CanGetTo(counting, s, t, CommitBack(t))
  {
    ReachableInv(counting, s);
    assert TxFine(counting, s.db, s.txs[t]);
    if counting == ChangedRows {
      LedgerSaysGivenBack(s, s.txs[t].order);
    }
    if m :| RunsAloneTo(counting, s, t, m) && Enabled(m, CommitBack(t)) {
      ReturnAloneAdds(counting, s, t, m);
      AloneMoves(counting, s, t, m);
      ReachableInv(counting, m);
      assert TxFine(counting, m.db, m.txs[t]);
    }
    if AllListed(s.db.stock, s.txs[t].lines) && (counting == ChangedRows ==> GivenBack(s.txs[t].order) !in s.log) {
      ReturnGetsThere(counting, s, t);
    }
  }

  lemma ReturnGetsThere(counting: Counting, s: State, t: nat)
    requires Reachable(counting, s) && IsBack(s, t) && StartsAlone(s, t) && LedgerFree(s, t, s.txs[t].order)
    requires AllListed(s.db.stock, s.txs[t].lines) && s.txs[t].order in s.db.ledger
    requires counting == ChangedRows ==> s.db.ledger[s.txs[t].order].status.HasSell?
    ensures CanGetTo(counting, s, t, CommitBack(t))
  {
    var m := BackPositions(counting, s, t, |s.txs[t].lines|);
    AloneMoves(counting, s, t, m);
    assert LedgerFree(m, t, s.txs[t].order);
    AloneGoesOn(counting, s, t, m, FlipLedger(t));
    assert Enabled(Apply(counting, m, FlipLedger(t)), CommitBack(t));
  }

  /** One position of an addition that runs alone. */
  lemma SavePosition(counting: Counting, s: State, t: nat, m: State) returns (m': State)
    requires Reachable(counting, s) && t < |s.txs| && RunsAloneTo(counting, s, t, m)
    requires forall u :: 0 <= u < |s.txs| && u != t ==> s.txs[u].view == map[]
    requires IsSave(m, t) && m.txs[t].read.None? && m.txs[t].next < |m.txs[t].lines|
    requires m.txs[t].lines[m.txs[t].next].product in s.db.stock
    ensures RunsAloneTo(counting, s, t, m') && IsSave(m', t)
    ensures m'.txs[t].read.None? && m'.txs[t].next == m.txs[t].next + 1
  {
    AloneMoves(counting, s, t, m);
    assert Enabled(m, ReadRow(t));
    MissingRowsEnd(counting, m, t);
    AloneGoesOn(counting, s, t, m, ReadRow(t));
    var read := Apply(counting, m, ReadRow(t));
    AloneMoves(counting, s, t, read);
    assert Enabled(read, SaveRow(t));
    AloneGoesOn(counting, s, t, read, SaveRow(t));
    m' := Apply(counting, read, SaveRow(t));
  }

  lemma {:induction false} SavePositions(counting: Counting, s: State, t: nat, n: nat) returns (m: State)
    requires Reachable(counting, s) && IsSave(s, t) && StartsAlone(s, t)
    requires AllListed(s.db.stock, s.txs[t].lines) && n <= |s.txs[t].lines|
    ensures RunsAloneTo(counting, s, t, m) && IsSave(m, t) && m.txs[t].read.None? && m.txs[t].next == n
  {
    if n == 0 {
      AloneStays(counting, s, t);
      return s;
    }
    var before := SavePositions(counting, s, t, n - 1);
    AloneMoves(counting, s, t, before);
    m := SavePosition(counting, s, t, before);
  }

  /** What a save that runs alone has read is what the rows hold. */
  ghost predicate ReadsAreCurrent(db: Db, tx: Tx)
  {
    tx.SaveTx? ==>
      && Current(db, tx)
      && (tx.read.Some? && tx.next < |tx.lines| && tx.lines[tx.next].product in db.stock ==>
            tx.read.value.num == db.stock[tx.lines[tx.next].product])
  }

  lemma {:induction false} AloneReadsAreCurrent(counting: Counting, s: State, t: nat, es: seq<Step>)
    requires t < |s.txs| && ReadsAreCurrent(s.db, s.txs[t])
    requires Exec(counting, s, es).Some? && forall k :: 0 <= k < |es| ==> Own(es[k], t)
    ensures var m := Exec(counting, s, es).value; t < |m.txs| && ReadsAreCurrent(m.db, m.txs[t])
  {
    if es != [] {
      var init, e := es[..|es| - 1], es[|es| - 1];
      assert forall k :: 0 <= k < |init| ==> init[k] == es[k];
      AloneReadsAreCurrent(counting, s, t, init);
      OwnStepMoves(counting, Exec(counting, s, init).value, t, e);
    }
  }

  /** What an addition that ran alone commits. */
  lemma SaveAloneAdds(counting: Counting, s: State, t: nat, m: State)
    requires Reachable(counting, s) && IsSave(s, t) && StartsAlone(s, t)
    requires RunsAloneTo(counting, s, t, m) && Enabled(m, CommitSave(t))
    ensures AllListed(s.db.stock, s.txs[t].lines)
    ensures Apply(counting, m, CommitSave(t)).db.stock == StockService.AddLast(s.db.stock, s.txs[t].lines)
  {
    AloneMoves(counting, s, t, m);
    assert ReadsAreCurrent(s.db, s.txs[t]);
    var es :| Exec(counting, s, es) == Some(m) && forall k :: 0 <= k < |es| ==> Own(es[k], t);
    AloneReadsAreCurrent(counting, s, t, es);
    ReachableInv(counting, m);
    assert TxFine(counting, m.db, m.txs[t]);
    OverlayIsAdditionIffCurrent(m.db, m.txs[t]);
  }

  /** An addition that runs while nobody else holds a row can commit exactly when every product listed has a row. */
  lemma AdditionAloneCommitsIff(counting: Counting, s: State, t: nat)
    requires StartsAlone(s, t) && IsSave(s, t) && Reachable(counting, s)
    ensures AllListed(s.db.stock, s.txs[t].lines) <==> CanGetTo(counting, s, t, CommitSave(t))
  {
    if m :| RunsAloneTo(counting, s, t, m) && Enabled(m, CommitSave(t)) {
      SaveAloneAdds(counting, s, t, m);
    }
    if AllListed(s.db.stock, s.txs[t].lines) {
      var m := SavePositions(counting, s, t, |s.txs[t].lines|);
      AloneMoves(counting, s, t, m);
      assert Enabled(m, CommitSave(t));
    }
  }
}
