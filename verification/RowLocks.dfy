/** Sales, returns and stock additions from any number of service instances, interleaved row by row. A
    transaction sees its own writes over the committed rows and holds every row it has read FOR
    UPDATE or written until it commits or aborts; SetStock and BackStock read without a lock. The
    in-process mutex around Sell is not modelled: everything below holds without it. */
module RowLocks {
  import opened Common
  import opened Quantities
  import StockService

  /** What a driver reports as the rows affected by an UPDATE that sets a column to the value it already
      has: none (only changed rows count) or one (every matched row counts). */
  datatype Counting = ChangedRows | MatchedRows

  datatype Db = Db(stock: Stock, versions: map<int, int>, ledger: LedgerTable)

  datatype Read = Read(num: int, version: int)

  /** `view` maps the rows the transaction has locked to the quantities it sees in them. A SaveTx is a SetStock (one
      line) or a BackStock; `base` keeps the quantity it last read of each row it has saved, and `versions` the
      version it writes back. */
  datatype Tx =
    | SellTx(order: string, lines: seq<Line>, next: nat, read: Option<Read>, view: Stock)
    | BackTx(order: string, lines: seq<Line>, next: nat, flipped: bool, view: Stock)
    | SaveTx(lines: seq<Line>, next: nat, read: Option<Read>, base: Stock, versions: map<int, int>, view: Stock)
    | Ended(view: Stock)

  datatype Entry = Sold(order: string, lines: seq<Line>) | GivenBack(order: string) | Saved(lines: seq<Line>)

  /** `log` records the commits in order; `start` is the database before the first of them. `stale` is history: a
      save has committed over a row that no longer held the quantity it had read. */
  datatype State = State(start: Db, db: Db, txs: seq<Tx>, log: seq<Entry>, stale: bool)

  datatype Step =
    | BeginSell(order: string, lines: seq<Line>)
    | LockRow(t: nat)        // SELECT ... FOR UPDATE of the next row, and the check of its quantity
    | UpdateRow(t: nat)      // UPDATE ... WHERE product_id and version as read
    | CommitSell(t: nat)
    | BeginBack(order: string)  // unlocked read of the ledger row
    | AddToRow(t: nat)       // UPDATE num = num + ?
    | FlipLedger(t: nat)     // UPDATE status, acting on the rows-affected count
    | CommitBack(t: nat)
    | BeginSave(lines: seq<Line>)
    | ReadRow(t: nat)        // unlocked read of the committed next row
    | SaveRow(t: nat)        // UPDATE of the whole row from what was read
    | CommitSave(t: nat)
    | Abort(t: nat)

  ghost predicate Free(s: State, t: nat, p: int)
  {
    forall u :: 0 <= u < |s.txs| && u != t ==> p !in s.txs[u].view
  }

  /** No other return of this order has its ledger row locked. */
  ghost predicate LedgerFree(s: State, t: nat, order: string)
  {
    forall u :: 0 <= u < |s.txs| && u != t && s.txs[u].BackTx? && s.txs[u].flipped ==> s.txs[u].order != order
  }

  predicate IsSell(s: State, t: nat) { t < |s.txs| && s.txs[t].SellTx? }

  predicate IsBack(s: State, t: nat) { t < |s.txs| && s.txs[t].BackTx? }

  predicate IsSave(s: State, t: nat) { t < |s.txs| && s.txs[t].SaveTx? }

  function Seen(s: State, tx: Tx, p: int): int
    requires p in s.db.stock
  {
    if p in tx.view then tx.view[p] else s.db.stock[p]
  }

  ghost predicate Enabled(s: State, e: Step)
  {
    match e
    case BeginSell(o, lines) => o !in s.db.ledger && forall t: nat :: IsSell(s, t) ==> s.txs[t].order != o
    case LockRow(t) =>
      && IsSell(s, t) && s.txs[t].read.None? && s.txs[t].next < |s.txs[t].lines|
      && Free(s, t, s.txs[t].lines[s.txs[t].next].product)
    case UpdateRow(t) => IsSell(s, t) && s.txs[t].read.Some? && s.txs[t].next < |s.txs[t].lines|
    case CommitSell(t) => IsSell(s, t) && s.txs[t].read.None? && s.txs[t].next == |s.txs[t].lines|
    case BeginBack(o) => o in s.db.ledger && s.db.ledger[o].status.HasSell?
    case AddToRow(t) =>
      && IsBack(s, t) && s.txs[t].next < |s.txs[t].lines|
      && Free(s, t, s.txs[t].lines[s.txs[t].next].product)
    case FlipLedger(t) =>
      && IsBack(s, t) && !s.txs[t].flipped && s.txs[t].next == |s.txs[t].lines|
      && s.txs[t].order in s.db.ledger && LedgerFree(s, t, s.txs[t].order)
    case CommitBack(t) => IsBack(s, t) && s.txs[t].flipped && s.txs[t].order in s.db.ledger
    case BeginSave(lines) => true
    case ReadRow(t) => IsSave(s, t) && s.txs[t].read.None? && s.txs[t].next < |s.txs[t].lines|
    case SaveRow(t) =>
      && IsSave(s, t) && s.txs[t].read.Some? && s.txs[t].next < |s.txs[t].lines|
      && Free(s, t, s.txs[t].lines[s.txs[t].next].product)
    case CommitSave(t) => IsSave(s, t) && s.txs[t].read.None? && s.txs[t].next == |s.txs[t].lines|
    case Abort(t) => t < |s.txs|
  }

  function LockRowTx(s: State, tx: Tx): Tx
    requires tx.SellTx? && tx.next < |tx.lines|
  {
    var item := tx.lines[tx.next];
    if item.product !in s.db.stock || item.product !in s.db.versions
       || Seen(s, tx, item.product) < item.num then Ended(map[])
    else
      var num := Seen(s, tx, item.product);
      SellTx(tx.order, tx.lines, tx.next, Some(Read(num, s.db.versions[item.product])), tx.view[item.product := num])
  }

  /** Whether the version-guarded UPDATE matches the row. Its count is not looked at. */
  predicate GuardMatches(s: State, tx: Tx)
    requires tx.SellTx? && tx.next < |tx.lines| && tx.read.Some?
  {
    var p := tx.lines[tx.next].product;
    p in s.db.stock && p in s.db.versions && s.db.versions[p] == tx.read.value.version
  }

  function UpdateRowTx(s: State, tx: Tx): Tx
    requires tx.SellTx? && tx.next < |tx.lines| && tx.read.Some?
  {
    var item := tx.lines[tx.next];
    SellTx(tx.order, tx.lines, tx.next + 1, None,
           if GuardMatches(s, tx) then tx.view[item.product := tx.read.value.num - item.num] else tx.view)
  }

  function AddToRowTx(s: State, tx: Tx): Tx
    requires tx.BackTx? && tx.next < |tx.lines|
  {
    var item := tx.lines[tx.next];
    if item.product !in s.db.stock then Ended(map[])
    else
      var num := Seen(s, tx, item.product) + item.num;
      BackTx(tx.order, tx.lines, tx.next + 1, tx.flipped, tx.view[item.product := num])
  }

  function FlipLedgerTx(counting: Counting, s: State, tx: Tx): Tx
    requires tx.BackTx? && tx.order in s.db.ledger
  {
    if counting == ChangedRows && s.db.ledger[tx.order].status.HasBack? then Ended(map[]) else tx.(flipped := true)
  }

  function ReadRowTx(s: State, tx: Tx): Tx
    requires tx.SaveTx? && tx.next < |tx.lines|
  {
    var p := tx.lines[tx.next].product;
    if p !in s.db.stock || p !in s.db.versions then Ended(map[])
    else SaveTx(tx.lines, tx.next, Some(Read(s.db.stock[p], s.db.versions[p])), tx.base, tx.versions, tx.view)
  }

  function SaveRowTx(tx: Tx): Tx
    requires tx.SaveTx? && tx.next < |tx.lines| && tx.read.Some?
  {
    var item, read := tx.lines[tx.next], tx.read.value;
    SaveTx(tx.lines, tx.next + 1, None, tx.base[item.product := read.num],
           tx.versions[item.product := read.version], tx.view[item.product := read.num + item.num])
  }

  /** Every row the save has written still holds the quantity it last read there. */
  ghost predicate Current(db: Db, tx: Tx)
    requires tx.SaveTx?
  {
    forall p :: p in tx.base && p in db.stock ==> tx.base[p] == db.stock[p]
  }

  ghost function Overlay(stock: Stock, view: Stock): Stock
  {
    map p | p in stock :: if p in view then view[p] else stock[p]
  }

  ghost function Apply(counting: Counting, s: State, e: Step): State
    requires Enabled(s, e)
  {
    match e
    case BeginSell(o, lines) => s.(txs := s.txs + [SellTx(o, lines, 0, None, map[])])
    case LockRow(t) => s.(txs := s.txs[t := LockRowTx(s, s.txs[t])])
    case UpdateRow(t) => s.(txs := s.txs[t := UpdateRowTx(s, s.txs[t])])
    case CommitSell(t) =>
      var tx := s.txs[t];
      State(s.start,
            s.db.(stock := Overlay(s.db.stock, tx.view),
                  ledger := s.db.ledger[tx.order := StockItemDetail(HasSell, tx.lines)]),
            s.txs[t := Ended(map[])], s.log + [Sold(tx.order, tx.lines)], s.stale)
    case BeginBack(o) => s.(txs := s.txs + [BackTx(o, s.db.ledger[o].details, 0, false, map[])])
    case AddToRow(t) => s.(txs := s.txs[t := AddToRowTx(s, s.txs[t])])
    case FlipLedger(t) => s.(txs := s.txs[t := FlipLedgerTx(counting, s, s.txs[t])])
    case CommitBack(t) =>
      var tx := s.txs[t];
      State(s.start,
            s.db.(stock := Overlay(s.db.stock, tx.view),
                  ledger := s.db.ledger[tx.order := s.db.ledger[tx.order].(status := HasBack)]),
            s.txs[t := Ended(map[])], s.log + [GivenBack(tx.order)], s.stale)
    case BeginSave(lines) => s.(txs := s.txs + [SaveTx(lines, 0, None, map[], map[], map[])])
    case ReadRow(t) => s.(txs := s.txs[t := ReadRowTx(s, s.txs[t])])
    case SaveRow(t) => s.(txs := s.txs[t := SaveRowTx(s.txs[t])])
    case CommitSave(t) =>
      var tx := s.txs[t];
      State(s.start,
            s.db.(stock := Overlay(s.db.stock, tx.view), versions := Overlay(s.db.versions, tx.versions)),
            s.txs[t := Ended(map[])], s.log + [Saved(tx.lines)], s.stale || !Current(s.db, tx))
    case Abort(t) => s.(txs := s.txs[t := Ended(map[])])
  }

  ghost function Exec(counting: Counting, s: State, es: seq<Step>): Option<State>
  {
    if es == [] then Some(s)
    else
      match Exec(counting, s, es[..|es| - 1])
      case None => None
      case Some(m) => if Enabled(m, es[|es| - 1]) then Some(Apply(counting, m, es[|es| - 1])) else None
  }

  ghost predicate Init(s: State)
  {
    && s.db == s.start && s.txs == [] && s.log == [] && !s.stale
    && s.db.ledger == map[] && s.db.versions.Keys == s.db.stock.Keys
  }

  ghost predicate Reachable(counting: Counting, s: State)
  {
    exists s0, es :: Init(s0) && Exec(counting, s0, es) == Some(s)
  }

  // ----- the serial meaning of a log -----

  datatype Books = Books(stock: Stock, ledger: LedgerTable)

  /** One committed operation run alone: a sale needs stock, a return needs a sold order, an addition its rows. */
  ghost function Serially(b: Books, e: Entry): Option<Books>
  {
    if LedgerAfter(b.ledger, e).None? then None
    else
      match e
      case Sold(o, lines) =>
        if Sellable(b.stock, lines) then Some(Books(Subtract(b.stock, lines), LedgerAfter(b.ledger, e).value)) else None
      case GivenBack(o) =>
        var lines := b.ledger[o].details;
        if AllListed(b.stock, lines) then Some(Books(Add(b.stock, lines), LedgerAfter(b.ledger, e).value)) else None
      case Saved(lines) =>
        if AllListed(b.stock, lines) then Some(b.(stock := StockService.AddLast(b.stock, lines))) else None
  }

  /** What an operation does to the ledger: each order is sold once, and given back once after that. */
  function LedgerAfter(ledger: LedgerTable, e: Entry): (r: Option<LedgerTable>)
    ensures e.GivenBack? && r.Some? ==> e.order in ledger
  {
    match e
    case Sold(o, lines) => if o !in ledger then Some(ledger[o := StockItemDetail(HasSell, lines)]) else None
    case GivenBack(o) =>
      if o in ledger && ledger[o].status.HasSell? then Some(ledger[o := ledger[o].(status := HasBack)]) else None
    case Saved(lines) => Some(ledger)
  }

  function LedgerReplay(ledger: LedgerTable, log: seq<Entry>): Option<LedgerTable>
  {
    if log == [] then Some(ledger)
    else
      match LedgerReplay(ledger, log[..|log| - 1])
      case None => None
      case Some(m) => LedgerAfter(m, log[|log| - 1])
  }

  ghost function Replay(b: Books, log: seq<Entry>): Option<Books>
  {
    if log == [] then Some(b)
    else
      match Replay(b, log[..|log| - 1])
      case None => None
      case Some(m) => Serially(m, log[|log| - 1])
  }

  ghost predicate Serializable(s: State)
  {
    Replay(Books(s.start.stock, s.start.ledger), s.log) == Some(Books(s.db.stock, s.db.ledger))
  }

  // ----- the invariant -----

  ghost predicate SellFine(db: Db, tx: Tx)
    requires tx.SellTx?
  {
    && tx.next <= |tx.lines|
    && tx.view.Keys <= db.stock.Keys
    && (forall j :: 0 <= j < tx.next ==> tx.lines[j].product in tx.view && Enough(db.stock, tx.lines, j))
    && (forall p :: p in tx.view ==> tx.view[p] == db.stock[p] - Total(tx.lines[..tx.next], p))
    && (tx.read.Some? ==>
          && tx.next < |tx.lines|
          && var item := tx.lines[tx.next];
             && item.product in tx.view && item.product in db.versions
             && tx.read.value == Read(tx.view[item.product], db.versions[item.product])
             && tx.read.value.num >= item.num)
  }

  ghost predicate BackFine(counting: Counting, db: Db, tx: Tx)
    requires tx.BackTx?
  {
    && tx.order in db.ledger && tx.lines == db.ledger[tx.order].details
    && tx.next <= |tx.lines|
    && tx.view.Keys <= db.stock.Keys
    && (forall j :: 0 <= j < tx.next ==> tx.lines[j].product in tx.view)
    && (forall p :: p in tx.view ==> tx.view[p] == db.stock[p] + Total(tx.lines[..tx.next], p))
    && (tx.flipped ==> tx.next == |tx.lines| && (counting == ChangedRows ==> db.ledger[tx.order].status.HasSell?))
  }

  ghost predicate SaveFine(db: Db, tx: Tx)
    requires tx.SaveTx?
  {
    && tx.next <= |tx.lines|
    && tx.view.Keys <= db.stock.Keys
    && tx.base.Keys == tx.view.Keys && tx.versions.Keys == tx.view.Keys
    && (forall j :: 0 <= j < tx.next ==> tx.lines[j].product in tx.view)
    && (forall p :: p in tx.view ==> tx.view[p] == tx.base[p] + LastNum(tx.lines[..tx.next], p))
    && (tx.read.Some? ==> tx.next < |tx.lines| && tx.lines[tx.next].product in db.stock)
  }

  ghost predicate TxFine(counting: Counting, db: Db, tx: Tx)
  {
    && (tx.SellTx? ==> SellFine(db, tx) && tx.order !in db.ledger)
    && (tx.BackTx? ==> BackFine(counting, db, tx))
    && (tx.SaveTx? ==> SaveFine(db, tx))
    && (tx.Ended? ==> tx.view == map[])
  }

  /** Two transactions never hold the same stock row, the same flipped ledger row, or the same new order. */
  ghost predicate Apart(a: Tx, b: Tx)
  {
    && a.view.Keys !! b.view.Keys
    && (a.BackTx? && b.BackTx? && a.flipped && b.flipped ==> a.order != b.order)
    && (a.SellTx? && b.SellTx? ==> a.order != b.order)
  }

  ghost predicate Shape(counting: Counting, s: State)
  {
    && s.db.versions.Keys == s.db.stock.Keys
    && (forall t :: 0 <= t < |s.txs| ==> TxFine(counting, s.db, s.txs[t]))
    && (forall t, u :: 0 <= t < u < |s.txs| ==> Apart(s.txs[t], s.txs[u]))
  }

  ghost predicate Inv(counting: Counting, s: State)
  {
    && Shape(counting, s)
    && (counting == ChangedRows ==> LedgerReplay(s.start.ledger, s.log) == Some(s.db.ledger))
    && (counting == ChangedRows && !s.stale ==> Serializable(s))
  }

  /** Replacing one transaction keeps the invariant if the new one fits in. */
  lemma ReplaceTx(counting: Counting, s: State, t: nat, tx: Tx)
    requires Inv(counting, s) && t < |s.txs| && TxFine(counting, s.db, tx)
    requires forall u :: 0 <= u < |s.txs| && u != t ==> Apart(tx, s.txs[u]) && Apart(s.txs[u], tx)
    ensures Inv(counting, s.(txs := s.txs[t := tx]))
  {
  }

  /** Locking one more free row, or changing what is seen in a held one, keeps transactions apart. */
  lemma StaysApart(s: State, t: nat, tx: Tx, p: int)
    requires t < |s.txs| && Free(s, t, p) && tx.view.Keys <= s.txs[t].view.Keys + {p}
    requires forall i, u :: 0 <= i < u < |s.txs| ==> Apart(s.txs[i], s.txs[u])
    requires tx.SellTx? ==> s.txs[t].SellTx? && tx.order == s.txs[t].order
    requires tx.BackTx? ==> s.txs[t].BackTx? && tx.order == s.txs[t].order && tx.flipped == s.txs[t].flipped
    ensures forall u :: 0 <= u < |s.txs| && u != t ==> Apart(tx, s.txs[u]) && Apart(s.txs[u], tx)
  {
    forall u | 0 <= u < |s.txs| && u != t ensures Apart(tx, s.txs[u]) && Apart(s.txs[u], tx) {
      assert if u < t then Apart(s.txs[u], s.txs[t]) else Apart(s.txs[t], s.txs[u]);
    }
  }

  lemma LockRowKeeps(counting: Counting, s: State, t: nat)
    requires Inv(counting, s) && Enabled(s, LockRow(t))
    ensures Inv(counting, Apply(counting, s, LockRow(t)))
  {
    var tx := s.txs[t];
    var tx' := LockRowTx(s, tx);
    var p := tx.lines[tx.next].product;
    assert TxFine(counting, s.db, tx);
    if p in s.db.stock && p !in tx.view {
      TotalAbsent(tx.lines[..tx.next], p);
    }
    StaysApart(s, t, tx', p);
    ReplaceTx(counting, s, t, tx');
  }

  lemma UpdateRowKeeps(counting: Counting, s: State, t: nat)
    requires Inv(counting, s) && Enabled(s, UpdateRow(t))
    ensures Inv(counting, Apply(counting, s, UpdateRow(t)))
  {
    var tx := s.txs[t];
    var tx' := UpdateRowTx(s, tx);
    var item := tx.lines[tx.next];
    assert TxFine(counting, s.db, tx);
    TotalStepAll(tx.lines, tx.next);
    assert Free(s, t, item.product);
    StaysApart(s, t, tx', item.product);
    ReplaceTx(counting, s, t, tx');
  }

  lemma AddToRowKeeps(counting: Counting, s: State, t: nat)
    requires Inv(counting, s) && Enabled(s, AddToRow(t))
    ensures Inv(counting, Apply(counting, s, AddToRow(t)))
  {
    var tx := s.txs[t];
    var tx' := AddToRowTx(s, tx);
    var item := tx.lines[tx.next];
    assert TxFine(counting, s.db, tx);
    TotalStepAll(tx.lines, tx.next);
    if item.product in s.db.stock && item.product !in tx.view {
      TotalAbsent(tx.lines[..tx.next], item.product);
    }
    StaysApart(s, t, tx', item.product);
    ReplaceTx(counting, s, t, tx');
  }

  /** What a finished list of updates commits is what the serial operation computes. */
  lemma OverlayIsTotals(stock: Stock, lines: seq<Line>, view: Stock, sign: int)
    requires view.Keys <= stock.Keys
    requires forall j :: 0 <= j < |lines| ==> lines[j].product in view
    requires forall p :: p in view ==> view[p] == stock[p] + sign * Total(lines, p)
    ensures sign == -1 ==> Overlay(stock, view) == Subtract(stock, lines)
    ensures sign == 1 ==> Overlay(stock, view) == Add(stock, lines)
  {
    forall p | p in stock && p !in view ensures Total(lines, p) == 0 {
      TotalAbsent(lines, p);
    }
  }

  /** A commit that touches no ledger row but its own leaves the transactions in shape. */
  lemma CommitKeepsShape(counting: Counting, s: State, t: nat, s': State)
    requires Shape(counting, s) && t < |s.txs| && s'.txs == s.txs[t := Ended(map[])]
    requires s'.db.stock == Overlay(s.db.stock, s.txs[t].view) && s'.db.versions.Keys == s.db.versions.Keys
    requires forall p :: p in s.db.versions && p !in s.txs[t].view ==> s'.db.versions[p] == s.db.versions[p]
    requires forall o :: o in s.db.ledger ==> o in s'.db.ledger && s'.db.ledger[o].details == s.db.ledger[o].details
    requires forall o :: o in s'.db.ledger && (o !in s.db.ledger || s'.db.ledger[o] != s.db.ledger[o]) ==>
               Owns(s.txs[t], o)
    ensures Shape(counting, s')
  {
    var tx := s.txs[t];
    forall u | 0 <= u < |s.txs| && u != t ensures TxFine(counting, s'.db, s.txs[u]) {
      assert if u < t then Apart(s.txs[u], tx) else Apart(tx, s.txs[u]);
    }
  }

  /** The transaction writes this order's ledger row. */
  predicate Owns(tx: Tx, order: string)
  {
    (tx.SellTx? && tx.order == order) || (tx.BackTx? && tx.flipped && tx.order == order)
  }

  lemma CommitSellKeeps(counting: Counting, s: State, t: nat)
    requires Inv(counting, s) && Enabled(s, CommitSell(t))
    ensures Inv(counting, Apply(counting, s, CommitSell(t)))
  {
    var tx, s' := s.txs[t], Apply(counting, s, CommitSell(t));
    assert TxFine(counting, s.db, tx);
    CommitKeepsShape(counting, s, t, s');
    assert tx.lines[..|tx.lines|] == tx.lines;
    OverlayIsTotals(s.db.stock, tx.lines, tx.view, -1);
    assert s'.log[..|s.log|] == s.log;
  }

  lemma CommitBackKeeps(counting: Counting, s: State, t: nat)
    requires Inv(counting, s) && Enabled(s, CommitBack(t))
    ensures Inv(counting, Apply(counting, s, CommitBack(t)))
  {
    var tx, s' := s.txs[t], Apply(counting, s, CommitBack(t));
    assert TxFine(counting, s.db, tx);
    CommitKeepsShape(counting, s, t, s');
    assert tx.lines[..|tx.lines|] == tx.lines;
    OverlayIsTotals(s.db.stock, tx.lines, tx.view, 1);
    assert s'.log[..|s.log|] == s.log;
  }

  lemma FlipLedgerKeeps(counting: Counting, s: State, t: nat)
    requires Inv(counting, s) && Enabled(s, FlipLedger(t))
    ensures Inv(counting, Apply(counting, s, FlipLedger(t)))
  {
    var tx := s.txs[t];
    var tx' := FlipLedgerTx(counting, s, tx);
    assert TxFine(counting, s.db, tx);
    forall u | 0 <= u < |s.txs| && u != t ensures Apart(tx', s.txs[u]) && Apart(s.txs[u], tx') {
      assert if u < t then Apart(s.txs[u], tx) else Apart(tx, s.txs[u]);
    }
    ReplaceTx(counting, s, t, tx');
  }

  lemma ReadRowKeeps(counting: Counting, s: State, t: nat)
    requires Inv(counting, s) && Enabled(s, ReadRow(t))
    ensures Inv(counting, Apply(counting, s, ReadRow(t)))
  {
    assert TxFine(counting, s.db, s.txs[t]);
    var tx' := ReadRowTx(s, s.txs[t]);
    forall u | 0 <= u < |s.txs| && u != t ensures Apart(tx', s.txs[u]) && Apart(s.txs[u], tx') {
      assert if u < t then Apart(s.txs[u], s.txs[t]) else Apart(s.txs[t], s.txs[u]);
    }
    ReplaceTx(counting, s, t, tx');
  }

  lemma SaveRowIsFine(db: Db, tx: Tx)
    requires tx.SaveTx? && SaveFine(db, tx) && tx.read.Some?
    ensures SaveFine(db, SaveRowTx(tx))
  {
    assert tx.lines[..tx.next + 1][..tx.next] == tx.lines[..tx.next];
  }

  lemma SaveRowKeeps(counting: Counting, s: State, t: nat)
    requires Inv(counting, s) && Enabled(s, SaveRow(t))
    ensures Inv(counting, Apply(counting, s, SaveRow(t)))
  {
    var tx := s.txs[t];
    var tx' := SaveRowTx(tx);
    assert TxFine(counting, s.db, tx);
    SaveRowIsFine(s.db, tx);
    StaysApart(s, t, tx', tx.lines[tx.next].product);
    ReplaceTx(counting, s, t, tx');
  }

  /** What a finished save commits is an addition to the committed rows exactly when those still hold what it read. */
  lemma OverlayIsAdditionIffCurrent(db: Db, tx: Tx)
    requires tx.SaveTx? && SaveFine(db, tx) && tx.next == |tx.lines|
    ensures AllListed(db.stock, tx.lines)
    ensures Overlay(db.stock, tx.view) == StockService.AddLast(db.stock, tx.lines) <==> Current(db, tx)
  {
    assert tx.lines[..tx.next] == tx.lines;
    var after, added := Overlay(db.stock, tx.view), StockService.AddLast(db.stock, tx.lines);
    forall p | p in db.stock && p !in tx.view ensures LastNum(tx.lines, p) == 0 {
      AbsentLastNum(tx.lines, p);
    }
    if after == added {
      forall p | p in tx.base && p in db.stock ensures tx.base[p] == db.stock[p] {
        assert after[p] == added[p];
      }
    }
  }

  lemma CommitSaveKeeps(counting: Counting, s: State, t: nat)
    requires Inv(counting, s) && Enabled(s, CommitSave(t))
    ensures Inv(counting, Apply(counting, s, CommitSave(t)))
  {
    var tx, s' := s.txs[t], Apply(counting, s, CommitSave(t));
    assert TxFine(counting, s.db, tx);
    CommitKeepsShape(counting, s, t, s');
    OverlayIsAdditionIffCurrent(s.db, tx);
    assert s'.log[..|s.log|] == s.log;
  }

  lemma BeginKeeps(counting: Counting, s: State, tx: Tx)
    requires Inv(counting, s) && tx.view == map[] && TxFine(counting, s.db, tx)
    requires tx.SellTx? ==> forall t: nat :: IsSell(s, t) ==> s.txs[t].order != tx.order
    requires tx.BackTx? ==> !tx.flipped
    ensures Inv(counting, s.(txs := s.txs + [tx]))
  {
    forall t | 0 <= t < |s.txs| ensures Apart(s.txs[t], tx) {
      assert s.txs[t].SellTx? ==> IsSell(s, t);
    }
  }

  lemma StepKeeps(counting: Counting, s: State, e: Step)
    requires Inv(counting, s) && Enabled(s, e)
    ensures Inv(counting, Apply(counting, s, e))
  {
    match e
    case BeginSell(o, lines) => BeginKeeps(counting, s, SellTx(o, lines, 0, None, map[]));
    case LockRow(t) => LockRowKeeps(counting, s, t);
    case UpdateRow(t) => UpdateRowKeeps(counting, s, t);
    case CommitSell(t) => CommitSellKeeps(counting, s, t);
    case BeginBack(o) => BeginKeeps(counting, s, BackTx(o, s.db.ledger[o].details, 0, false, map[]));
    case AddToRow(t) => AddToRowKeeps(counting, s, t);
    case FlipLedger(t) => FlipLedgerKeeps(counting, s, t);
    case CommitBack(t) => CommitBackKeeps(counting, s, t);
    case BeginSave(lines) => BeginKeeps(counting, s, SaveTx(lines, 0, None, map[], map[], map[]));
    case ReadRow(t) => ReadRowKeeps(counting, s, t);
    case SaveRow(t) => SaveRowKeeps(counting, s, t);
    case CommitSave(t) => CommitSaveKeeps(counting, s, t);
    case Abort(t) =>
  }

  lemma {:induction false} RunKeeps(counting: Counting, s0: State, es: seq<Step>)
    requires Init(s0) && Exec(counting, s0, es).Some?
    ensures Inv(counting, Exec(counting, s0, es).value)
  {
    if es != [] {
      RunKeeps(counting, s0, es[..|es| - 1]);
      StepKeeps(counting, Exec(counting, s0, es[..|es| - 1]).value, es[|es| - 1]);
    }
  }

  lemma ReachableInv(counting: Counting, s: State)
    requires Reachable(counting, s)
    ensures Inv(counting, s)
  {
    var s0, es :| Init(s0) && Exec(counting, s0, es) == Some(s);
    RunKeeps(counting, s0, es);
  }

  // ----- main results -----

  /** The version guard always matches the row read at the start of the same iteration, and the row still
      holds the quantity that was read: not looking at the rows-affected count is sound. */
  lemma VersionGuardNeverMisses(counting: Counting, s: State, t: nat)
    requires Reachable(counting, s) && IsSell(s, t) && s.txs[t].read.Some? && s.txs[t].next < |s.txs[t].lines|
    ensures GuardMatches(s, s.txs[t])
    ensures var p := s.txs[t].lines[s.txs[t].next].product; Seen(s, s.txs[t], p) == s.txs[t].read.value.num
  {
    ReachableInv(counting, s);
    assert TxFine(counting, s.db, s.txs[t]);
  }

  /** What was given back stays so in the rest of the log. */
  lemma {:induction false} ReplayRemembers(ledger: LedgerTable, log: seq<Entry>, i: nat)
    requires LedgerReplay(ledger, log).Some? && i < |log| && log[i].GivenBack?
    ensures var m := LedgerReplay(ledger, log).value; log[i].order in m && m[log[i].order].status.HasBack?
  {
    if i < |log| - 1 {
      ReplayRemembers(ledger, log[..|log| - 1], i);
    }
  }

  /** A log that replays gives no order back twice. */
  lemma {:induction false} ReplayGivesBackOnce(ledger: LedgerTable, log: seq<Entry>, i: nat, j: nat)
    requires LedgerReplay(ledger, log).Some? && i < j < |log|
    ensures !(log[i].GivenBack? && log[i] == log[j])
  {
    var init := log[..|log| - 1];
    if j < |log| - 1 {
      ReplayGivesBackOnce(ledger, init, i, j);
    } else if log[i].GivenBack? {
      ReplayRemembers(ledger, init, i);
    }
  }

  lemma {:induction false} ReplayReplaysLedger(b: Books, log: seq<Entry>)
    requires Replay(b, log).Some?
    ensures LedgerReplay(b.ledger, log) == Some(Replay(b, log).value.ledger)
  {
    if log != [] {
      ReplayReplaysLedger(b, log[..|log| - 1]);
    }
  }

  /** Any interleaving of sales, returns and additions leaves the committed stock and ledger that running the committed
      ones alone, in commit order, would leave, as long as every addition that committed found its rows as it had
      read them: no update is lost. */
  lemma CommitsAreSerializable(s: State)
    requires Reachable(ChangedRows, s) && !s.stale
    ensures Serializable(s)
  {
    ReachableInv(ChangedRows, s);
  }

  /** That condition is exact: the commit that first breaks it is the one after which the committed rows are no longer
      what the operations give run alone. SetStock and BackStock are serializable if and only if the rows they
      write still hold the quantities they read. */
  lemma SaveIsSerializableIffCurrent(s: State, t: nat)
    requires Reachable(ChangedRows, s) && !s.stale && Enabled(s, CommitSave(t))
    ensures Serializable(Apply(ChangedRows, s, CommitSave(t))) <==> Current(s.db, s.txs[t])
  {
    ReachableInv(ChangedRows, s);
    var tx, s' := s.txs[t], Apply(ChangedRows, s, CommitSave(t));
    assert TxFine(ChangedRows, s.db, tx);
    OverlayIsAdditionIffCurrent(s.db, tx);
    assert s'.log[..|s.log|] == s.log;
  }

  /** Two deliveries of the same "give back" message that run at the same time return the stock once, whatever else
      runs beside them. */
  lemma ConcurrentReturnsHappenOnce(s: State, i: nat, j: nat)
    requires Reachable(ChangedRows, s) && i < j < |s.log| && s.log[i].GivenBack?
    ensures s.log[i] != s.log[j]
  {
    ReachableInv(ChangedRows, s);
    ReplayGivesBackOnce(s.start.ledger, s.log, i, j);
  }

  /** The consumer relies on the driver counting changed rows only, because its ledger UPDATE does not ask for
      the old status: that is exactly what makes concurrent deliveries safe. */
  lemma SerializableIffChangedRowsCount(counting: Counting)
    ensures (forall s :: Reachable(counting, s) && !s.stale ==> Serializable(s)) <==> counting == ChangedRows
  {
    if counting == ChangedRows {
      forall s | Reachable(counting, s) && !s.stale ensures Serializable(s) {
        CommitsAreSerializable(s);
      }
    } else {
      var s := ReturnedTwice();
      assert s.log[1] == s.log[2] == GivenBack("A");
      if Serializable(s) {
        ReplayReplaysLedger(Books(s.start.stock, s.start.ledger), s.log);
        ReplayGivesBackOnce(s.start.ledger, s.log, 1, 2);
      }
    }
  }

  const SHOP: State :=
    var db := Db(map[1 := 5], map[1 := 0], map[]); State(db, db, [], [], false)

  lemma Do(counting: Counting, s: State, e: Step) returns (s': State)
    requires Reachable(counting, s) && Enabled(s, e)
    ensures s' == Apply(counting, s, e) && Reachable(counting, s')
  {
    var s0, es :| Init(s0) && Exec(counting, s0, es) == Some(s);
    s' := Apply(counting, s, e);
    assert (es + [e])[..|es|] == es;
    assert Exec(counting, s0, es + [e]) == Some(s');
  }

  /** A sale of one piece of product 1 to order A by a new transaction, up to its commit. */
  lemma SellOne(counting: Counting, s: State) returns (s': State)
    requires Reachable(counting, s) && s.db == SHOP.db && s.log == []
    requires forall u :: 0 <= u < |s.txs| ==> s.txs[u].view == map[] && !s.txs[u].SellTx?
    ensures Reachable(counting, s') && s'.start == s.start && s'.stale == s.stale
    ensures s'.db == Db(map[1 := 4], map[1 := 0], map["A" := StockItemDetail(HasSell, [Line(1, 1)])])
    ensures s'.txs == s.txs + [Ended(map[])] && s'.log == [Sold("A", [Line(1, 1)])]
  {
    var t := |s.txs|;
    s' := OneLocked(counting, s);
    s' := Do(counting, s', UpdateRow(t));
    assert s'.txs[t] == SellTx("A", [Line(1, 1)], 1, None, map[1 := 4]) by {
      assert map[1 := 5][1 := 4] == map[1 := 4];
    }
    s' := Do(counting, s', CommitSell(t));
    assert s'.db.stock == map[1 := 4];
  }

  lemma OneLocked(counting: Counting, s: State) returns (s': State)
    requires Reachable(counting, s) && s.db == SHOP.db && s.log == []
    requires forall u :: 0 <= u < |s.txs| ==> s.txs[u].view == map[] && !s.txs[u].SellTx?
    ensures Reachable(counting, s')
    ensures s' == s.(txs := s.txs + [SellTx("A", [Line(1, 1)], 0, Some(Read(5, 0)), map[1 := 5])])
  {
    var t := |s.txs|;
    s' := Do(counting, s, BeginSell("A", [Line(1, 1)]));
    assert s'.txs[t] == SellTx("A", [Line(1, 1)], 0, None, map[]);
    s' := Do(counting, s', LockRow(t));
    assert s'.txs[t] == SellTx("A", [Line(1, 1)], 0, Some(Read(5, 0)), map[1 := 5]);
  }

  lemma Opened(counting: Counting)
    ensures Reachable(counting, SHOP)
  {
    assert Init(SHOP) && Exec(counting, SHOP, []) == Some(SHOP);
  }

  /** One complete return by transaction t of order A, which has read the ledger before. */
  lemma ReturnOne(s: State, t: nat) returns (s': State)
    requires Reachable(MatchedRows, s) && t < |s.txs| && s.txs[t] == BackTx("A", [Line(1, 1)], 0, false, map[])
    requires 1 in s.db.stock && "A" in s.db.ledger
    requires forall u :: 0 <= u < |s.txs| ==> s.txs[u].view == map[] && (s.txs[u].BackTx? ==> !s.txs[u].flipped)
    ensures Reachable(MatchedRows, s') && s'.start == s.start && s'.txs == s.txs[t := Ended(map[])]
    ensures s'.log == s.log + [GivenBack("A")] && s'.stale == s.stale
    ensures 1 in s'.db.stock && s'.db.stock[1] == s.db.stock[1] + 1 && "A" in s'.db.ledger
  {
    s' := Do(MatchedRows, s, AddToRow(t));
    s' := Do(MatchedRows, s', FlipLedger(t));
    s' := Do(MatchedRows, s', CommitBack(t));
  }

  lemma TwoDeliveries() returns (s: State)
    ensures Reachable(MatchedRows, s) && s.start.stock == map[1 := 5] && s.db.stock == map[1 := 4]
    ensures s.txs == [Ended(map[])] + [BackTx("A", [Line(1, 1)], 0, false, map[])] +
                     [BackTx("A", [Line(1, 1)], 0, false, map[])]
    ensures "A" in s.db.ledger && s.log == [Sold("A", [Line(1, 1)])] && !s.stale
  {
    Opened(MatchedRows);
    s := SellOne(MatchedRows, SHOP);
    s := Do(MatchedRows, s, BeginBack("A"));
    s := Do(MatchedRows, s, BeginBack("A"));
  }

  /** With matched rows counted, two deliveries that both read the ledger before either commits return the one
      sold piece twice. */
  lemma ReturnedTwice() returns (s: State)
    ensures Reachable(MatchedRows, s) && s.start.stock == map[1 := 5] && 1 in s.db.stock && s.db.stock[1] == 6
    ensures s.log == [Sold("A", [Line(1, 1)]), GivenBack("A"), GivenBack("A")] && !s.stale
  {
    s := TwoDeliveries();
    s := ReturnOne(s, 1);
    s := ReturnOne(s, 2);
  }

  /** SetStock (or BackStock) of one row that has read it and not saved it yet. */
  lemma ReadUnlocked(counting: Counting, added: int) returns (s: State)
    ensures Reachable(counting, s) && s.start == s.db == SHOP.db && s.log == []
    ensures s.txs == [SaveTx([Line(1, added)], 0, Some(Read(5, 0)), map[], map[], map[])]
  {
    Opened(counting);
    s := Do(counting, SHOP, BeginSave([Line(1, added)]));
    s := Do(counting, s, ReadRow(0));
  }

  lemma SavedLine(added: int)
    ensures SaveRowTx(SaveTx([Line(1, added)], 0, Some(Read(5, 0)), map[], map[], map[])) ==
            SaveTx([Line(1, added)], 1, None, map[1 := 5], map[1 := 0], map[1 := 5 + added])
  {
  }

  /** ... and that saves it after other transactions have ended. */
  lemma SavedUnread(counting: Counting, s: State, added: int) returns (s': State)
    requires Reachable(counting, s) && |s.txs| == 2 && s.txs[1] == Ended(map[])
    requires s.txs[0] == SaveTx([Line(1, added)], 0, Some(Read(5, 0)), map[], map[], map[])
    ensures Reachable(counting, s') && |s'.txs| == 2 && s' == s.(txs := s'.txs)
    ensures s'.txs[0] == SaveTx([Line(1, added)], 1, None, map[1 := 5], map[1 := 0], map[1 := 5 + added])
  {
    s' := Do(counting, s, SaveRow(0));
    SavedLine(added);
    assert s'.txs[0] == SaveRowTx(s.txs[0]);
  }

  /** A sale that commits between the unlocked read of SetStock or BackStock and its write is overwritten: one piece
      was sold and the stock does not show it. */
  lemma SetStockCanLoseASale(counting: Counting, added: int) returns (s: State)
    ensures Reachable(counting, s) && s.log == [Sold("A", [Line(1, 1)]), Saved([Line(1, added)])]
    ensures s.start.stock == map[1 := 5] && s.db.stock == map[1 := 5 + added] && s.stale
  {
    s := ReadUnlocked(counting, added);
    s := SellOne(counting, s);
    s := SavedUnread(counting, s, added);
    assert !Current(s.db, s.txs[0]) by {
      assert s.txs[0].base[1] != s.db.stock[1];
    }
    s := Do(counting, s, CommitSave(0));
    assert s.db.stock == map[1 := 5 + added];
  }
}
