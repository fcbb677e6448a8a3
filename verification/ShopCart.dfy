/** The cart table: rows under a numeric primary key, addressed by account and product; one call at a time. (CartRaces
    is about calls that overlap.) */
module ShopCart {
  import opened Common

  datatype CartRow = CartRow(account: int, product: int, num: int, checked: bool)

  datatype Request = Request(id: int, account: int, product: int, num: int, checked: bool)

  datatype Error = ShopCartNotFound | ParamError

  datatype Table = Table(rows: map<int, CartRow>, nextId: int)

  predicate Has(row: CartRow, account: int, product: int) { row.account == account && row.product == product }

  /** Primary keys are positive and not handed out yet, and no account has two rows for one product. */
  ghost predicate Valid(t: Table)
  {
    && (forall id :: id in t.rows ==> 0 < id < t.nextId)
    && (forall i, j :: i in t.rows && j in t.rows && Has(t.rows[j], t.rows[i].account, t.rows[i].product) ==> i == j)
    && t.nextId > 0
  }

  ghost predicate Listed(t: Table, account: int, product: int)
  {
    exists id :: id in t.rows && Has(t.rows[id], account, product)
  }

  ghost function IdOf(t: Table, account: int, product: int): (id: int)
    requires Listed(t, account, product)
    ensures id in t.rows && Has(t.rows[id], account, product)
  {
    var id :| id in t.rows && Has(t.rows[id], account, product);
    id
  }

  /** Saving a row under an id: replaces whatever row has that id. */
  function Save(t: Table, id: int, row: CartRow): Table
  {
    Table(t.rows[id := row], if id < t.nextId then t.nextId else id + 1)
  }

  datatype Op =
    | Add(req: Request)
    | Update(req: Request)
    | Delete(account: int, product: int)
    | Checkout(account: int)

  /** The id under which an add saves its row. */
  ghost function SavedId(t: Table, req: Request): int
  {
    if Listed(t, req.account, req.product) then IdOf(t, req.account, req.product)
    else if req.id > 0 then req.id
    else t.nextId
  }

  /** What each call does to the table. Update is accepted or refused, but its result is never saved. */
  ghost function Effect(t: Table, op: Op): Table
  {
    match op
    case Add(req) =>
      var id := SavedId(t, req);
      Save(t, id,
           if Listed(t, req.account, req.product)
           then t.rows[id].(num := t.rows[id].num + req.num, checked := req.checked)
           else CartRow(req.account, req.product, req.num, req.checked))
    case Update(req) => t
    case Delete(a, p) => t.(rows := map id | id in t.rows && !Has(t.rows[id], a, p) :: t.rows[id])
    case Checkout(a) =>
      t.(rows := map id | id in t.rows && !(t.rows[id].account == a && t.rows[id].checked) :: t.rows[id])
  }

  class CartServer {
    var rows: map<int, CartRow>
    var nextId: int

    constructor ()
      ensures Table(rows, nextId) == Table(map[], 1)
    {
      rows, nextId := map[], 1;
    }

    method AddShopCartItem(req: Request) returns (id: int)
      requires Valid(Table(rows, nextId))
      modifies this
      ensures Table(rows, nextId) == Effect(old(Table(rows, nextId)), Add(req))
      ensures Valid(Table(rows, nextId))
      ensures id in rows && Has(rows[id], req.account, req.product) && rows[id].checked == req.checked
      ensures rows[id].num == req.num + if id in old(rows) && Has(old(rows)[id], req.account, req.product)
                                        then old(rows)[id].num else 0
      ensures (forall k :: k in old(rows) ==> !Has(old(rows)[k], req.account, req.product)) ==>
                id == (if req.id > 0 then req.id else old(nextId)) &&
                rows[id] == CartRow(req.account, req.product, req.num, req.checked)
      ensures forall k :: k in rows && k != id ==> k in old(rows) && rows[k] == old(rows)[k]
      ensures forall k :: k in old(rows) ==> k in rows
    {
      ghost var t := Table(rows, nextId);
      if k :| k in rows && Has(rows[k], req.account, req.product) {
        assert k == IdOf(t, req.account, req.product);
        id := k;
        rows := rows[k := rows[k].(num := rows[k].num + req.num, checked := req.checked)];
      } else {
        assert !Listed(t, req.account, req.product);
        id := if req.id > 0 then req.id else nextId;
        rows := rows[id := CartRow(req.account, req.product, req.num, req.checked)];
        nextId := if id < nextId then nextId else id + 1;
      }
      EffectKeepsValid(t, Add(req));
    }

    /** Checks the request and changes a copy of the row, which is not written back. */
    method UpdateShopCartItem(req: Request) returns (r: Option<Error>)
      ensures Table(rows, nextId) == Effect(old(Table(rows, nextId)), Update(req))
      ensures r == if !Listed(Table(rows, nextId), req.account, req.product) then Some(ShopCartNotFound)
                   else if req.num < 1 then Some(ParamError)
                   else None
    {
      if k :| k in rows && Has(rows[k], req.account, req.product) {
        if req.num < 1 {
          return Some(ParamError);
        }
        var sc := rows[k];
        sc := sc.(num := req.num, checked := req.checked);
        return None;
      }
      return Some(ShopCartNotFound);
    }

    method DeleteShopCart(account: int, product: int)
      requires Valid(Table(rows, nextId))
      modifies this
      ensures Table(rows, nextId) == Effect(old(Table(rows, nextId)), Delete(account, product))
      ensures forall k :: k in rows ==> k in old(rows) && rows[k] == old(rows)[k]
      ensures forall k :: k in old(rows) ==>
                (k in rows <==> old(rows)[k].account != account || old(rows)[k].product != product)
      ensures Valid(Table(rows, nextId))
    {
      rows := map id | id in rows && !Has(rows[id], account, product) :: rows[id];
    }
  }

  lemma EffectKeepsValid(t: Table, op: Op)
    requires Valid(t)
    ensures Valid(Effect(t, op))
  {
  }

  ghost function Run(t: Table, ops: seq<Op>): Table
  {
    if ops == [] then t else Effect(Run(t, ops[..|ops| - 1]), ops[|ops| - 1])
  }

  /** Every run of adds, updates, deletes and checkouts, one after another, keeps at most one row per account and
      product, whatever ids the adds carry. */
  lemma {:induction false} RunsKeepOneRowPerProduct(t: Table, ops: seq<Op>)
    requires Valid(t)
    ensures Valid(Run(t, ops))
  {
    if ops != [] {
      RunsKeepOneRowPerProduct(t, ops[..|ops| - 1]);
      EffectKeepsValid(Run(t, ops[..|ops| - 1]), ops[|ops| - 1]);
    }
  }

  // ----- the cart the table stands for -----

  datatype Entry = Entry(num: int, checked: bool)

  /** What the table says about one account and product. */
  ghost function Lookup(t: Table, account: int, product: int): Option<Entry>
  {
    if Listed(t, account, product) then
      var row := t.rows[IdOf(t, account, product)];
      Some(Entry(row.num, row.checked))
    else None
  }

  /** What a call asks for at one entry of the cart. An update replaces quantity and mark of a row that is there, unless
      it is refused. */
  function Asked(e: Option<Entry>, account: int, product: int, op: Op): Option<Entry>
  {
    match op
    case Add(req) =>
      if req.account != account || req.product != product then e
      else if e.None? then Some(Entry(req.num, req.checked))
      else Some(Entry(e.value.num + req.num, req.checked))
    case Update(req) =>
      if req.account == account && req.product == product && e.Some? && req.num >= 1
      then Some(Entry(req.num, req.checked)) else e
    case Delete(a, p) => if a == account && p == product then None else e
    case Checkout(a) => if a == account && e.Some? && e.value.checked then None else e
  }

  ghost function AskedRun(e: Option<Entry>, account: int, product: int, ops: seq<Op>): Option<Entry>
  {
    if ops == [] then e
    else Asked(AskedRun(e, account, product, ops[..|ops| - 1]), account, product, ops[|ops| - 1])
  }

  /** The call is an add of a new product under an id that another row already has. */
  ghost predicate Overwrites(t: Table, op: Op)
  {
    op.Add? && !Listed(t, op.req.account, op.req.product) && op.req.id > 0 && op.req.id in t.rows
  }

  /** The row that is overwritten is the one of this entry. */
  ghost predicate Erases(t: Table, op: Op, account: int, product: int)
  {
    Overwrites(t, op) && Has(t.rows[op.req.id], account, product)
  }

  /** The call is an accepted update that would change this entry. */
  ghost predicate Ignores(t: Table, op: Op, account: int, product: int)
  {
    && op.Update? && op.req.account == account && op.req.product == product && op.req.num >= 1
    && Listed(t, account, product) && Lookup(t, account, product).value != Entry(op.req.num, op.req.checked)
  }

  /** A row is found under its own account and product. */
  lemma LookupIs(t: Table, id: int)
    requires Valid(t) && id in t.rows
    ensures Lookup(t, t.rows[id].account, t.rows[id].product) == Some(Entry(t.rows[id].num, t.rows[id].checked))
  {
    assert Has(t.rows[id], t.rows[id].account, t.rows[id].product);
  }

  lemma ErasedIsGone(t: Table, op: Op)
    requires Valid(t) && Overwrites(t, op)
    ensures var row := t.rows[op.req.id];
            Listed(t, row.account, row.product) && !Listed(Effect(t, op), row.account, row.product)
  {
    var row, t' := t.rows[op.req.id], Effect(t, op);
    LookupIs(t, op.req.id);
    forall id | id in t'.rows ensures !Has(t'.rows[id], row.account, row.product) {
    }
  }

  lemma EffectOnEntry(t: Table, op: Op, a: int, p: int)
    requires Valid(t) && !Erases(t, op, a, p)
    ensures Lookup(Effect(t, op), a, p) ==
            if Ignores(t, op, a, p) then Lookup(t, a, p) else Asked(Lookup(t, a, p), a, p, op)
  {
    var t' := Effect(t, op);
    EffectKeepsValid(t, op);
    if op.Add? {
      var k := SavedId(t, op.req);
      assert k in t'.rows && Has(t'.rows[k], op.req.account, op.req.product);
    }
    if Listed(t', a, p) {
      var id := IdOf(t', a, p);
      LookupIs(t', id);
      if id in t.rows {
        LookupIs(t, id);
      }
      if !op.Add? {
        assert t.rows[id] == t'.rows[id];
      }
    } else if Listed(t, a, p) {
      var id := IdOf(t, a, p);
      LookupIs(t, id);
      assert id !in t'.rows;
    }
  }

  /** A call does to an entry of the cart what it asks for exactly when it neither erases the entry's row by writing
      another under its id nor is an accepted update that would change the entry. */
  lemma EntryIsAsAskedIff(t: Table, op: Op, a: int, p: int)
    requires Valid(t)
    ensures Lookup(Effect(t, op), a, p) == Asked(Lookup(t, a, p), a, p, op) <==>
            !Erases(t, op, a, p) && !Ignores(t, op, a, p)
  {
    if Erases(t, op, a, p) {
      ErasedIsGone(t, op);
    } else {
      EffectOnEntry(t, op, a, p);
    }
  }

  ghost predicate ActsAsAsked(t: Table, op: Op)
  {
    forall a, p :: Lookup(Effect(t, op), a, p) == Asked(Lookup(t, a, p), a, p, op)
  }

  /** So it does what it asks for at every entry exactly when it overwrites no row and is no accepted update that would
      change anything. */
  lemma ActsAsAskedIff(t: Table, op: Op)
    requires Valid(t)
    ensures ActsAsAsked(t, op) <==>
            !Overwrites(t, op) && !(op.Update? && Ignores(t, op, op.req.account, op.req.product))
  {
    if ActsAsAsked(t, op) {
      if Overwrites(t, op) {
        EntryIsAsAskedIff(t, op, t.rows[op.req.id].account, t.rows[op.req.id].product);
      }
      if op.Update? {
        EntryIsAsAskedIff(t, op, op.req.account, op.req.product);
      }
    } else {
      var a, p :| Lookup(Effect(t, op), a, p) != Asked(Lookup(t, a, p), a, p, op);
      EntryIsAsAskedIff(t, op, a, p);
    }
  }

  /** No call of the run erases the entry or ignores a change of it. */
  ghost predicate NeverLost(t: Table, ops: seq<Op>, a: int, p: int)
  {
    forall k :: 0 <= k < |ops| ==> !Erases(Run(t, ops[..k]), ops[k], a, p) && !Ignores(Run(t, ops[..k]), ops[k], a, p)
  }

  /** Over every such run of calls, one after another, the table holds for this entry exactly what was asked for. */
  lemma {:induction false} TableHoldsTheCart(t: Table, ops: seq<Op>, a: int, p: int)
    requires Valid(t) && NeverLost(t, ops, a, p)
    ensures Lookup(Run(t, ops), a, p) == AskedRun(Lookup(t, a, p), a, p, ops)
  {
    if ops != [] {
      var init := ops[..|ops| - 1];
      assert forall k :: 0 <= k < |init| ==> init[..k] == ops[..k];
      TableHoldsTheCart(t, init, a, p);
      RunsKeepOneRowPerProduct(t, init);
      EntryIsAsAskedIff(Run(t, init), ops[|ops| - 1], a, p);
    }
  }

  /** Among calls one after another, the first that erases the entry or ignores a change of it is where the table stops
      holding what was asked for: up to there it does, and right after it does not. */
  lemma TableHoldsTheCartUntilLost(t: Table, ops: seq<Op>, op: Op, a: int, p: int)
    requires Valid(t) && NeverLost(t, ops, a, p)
    ensures Lookup(Run(t, ops), a, p) == AskedRun(Lookup(t, a, p), a, p, ops)
    ensures Lookup(Run(t, ops + [op]), a, p) == AskedRun(Lookup(t, a, p), a, p, ops + [op]) <==>
            !Erases(Run(t, ops), op, a, p) && !Ignores(Run(t, ops), op, a, p)
  {
    TableHoldsTheCart(t, ops, a, p);
    assert (ops + [op])[..|ops|] == ops;
    RunsKeepOneRowPerProduct(t, ops);
    EntryIsAsAskedIff(Run(t, ops), op, a, p);
  }

  /** The quantities added for one account and product. */
  function Added(ops: seq<Op>, account: int, product: int): int
  {
    if ops == [] then 0
    else
      var op := ops[|ops| - 1];
      Added(ops[..|ops| - 1], account, product) +
        if op.Add? && op.req.account == account && op.req.product == product then op.req.num else 0
  }

  /** As long as a row is there and calls do not overlap, its quantity is the sum of the adds since the table did not
      have it; accepted updates do not count. */
  lemma {:induction false} QuantityIsSumOfAdds(t: Table, ops: seq<Op>, a: int, p: int)
    requires Valid(t) && !Listed(t, a, p) && ops != []
    requires forall k :: 0 < k <= |ops| ==> Listed(Run(t, ops[..k]), a, p)
    ensures Listed(Run(t, ops), a, p)
    ensures Run(t, ops).rows[IdOf(Run(t, ops), a, p)].num == Added(ops, a, p)
  {
    var init, op := ops[..|ops| - 1], ops[|ops| - 1];
    assert ops[..|ops|] == ops;
    var mid := Run(t, init);
    RunsKeepOneRowPerProduct(t, init);
    if Erases(mid, op, a, p) {
      ErasedIsGone(mid, op);
      assert false;
    }
    EffectOnEntry(mid, op, a, p);
    if init != [] {
      assert forall k :: 0 < k <= |init| ==> init[..k] == ops[..k];
      QuantityIsSumOfAdds(t, init, a, p);
    }
  }
}
