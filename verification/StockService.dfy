/** The stock service's table and the calls that change it, one call at a time. (RowLocks is about
    calls that run at the same time.) */
module StockService {
  import opened Quantities

  datatype Row = Row(id: int, num: int, version: int)

  type Table = map<int, Row>  // product id to its row

  datatype StockError = ParamError | ProductNotFound | StockNotEnough

  datatype Reply<+T> = Ok(value: T) | Err(error: StockError)

  ghost function Nums(rows: Table): Stock { map p | p in rows :: rows[p].num }

  /** Nothing but quantities differs. */
  ghost predicate SameButNums(a: Table, b: Table)
  {
    a.Keys == b.Keys && forall p :: p in a ==> a[p].id == b[p].id && a[p].version == b[p].version
  }

  /** Position k is the first one the stock cannot serve. */
  ghost predicate FirstFailure(stock: Stock, items: seq<Line>, k: nat)
  {
    k < |items| && !Enough(stock, items, k) && forall j :: 0 <= j < k ==> Enough(stock, items, j)
  }

  /** What BackStock makes of a stock: for each product, its last listed quantity is added. */
  ghost function AddLast(stock: Stock, items: seq<Line>): Stock
  {
    map p | p in stock :: stock[p] + LastNum(items, p)
  }

  class StockServer {
    var rows: Table

    constructor (rows: Table)
      ensures this.rows == rows
    {
      this.rows := rows;
    }

    /** All or nothing: either every position can be served and exactly the totals are subtracted, or
        nothing changes and the error tells what was wrong at the first position that failed. */
    method Sell(items: seq<Line>) returns (r: Reply<()>)
      modifies this
      ensures r.Ok? <==> Sellable(old(Nums(rows)), items)
      ensures r.Ok? ==> Nums(rows) == Subtract(old(Nums(rows)), items) && SameButNums(old(rows), rows)
      ensures r.Err? ==> rows == old(rows)
      ensures r.Err? ==> exists k: nat ::
                FirstFailure(old(Nums(rows)), items, k) &&
                r.error == if items[k].product in rows then StockNotEnough else ProductNotFound
    {
      ghost var stock := Nums(rows);
      var tx := rows;
      for i := 0 to |items|
        invariant rows == old(rows)
        invariant SameButNums(rows, tx)
        invariant forall p :: p in tx ==> tx[p].num == stock[p] - Total(items[..i], p)
        invariant forall j :: 0 <= j < i ==> Enough(stock, items, j)
      {
        var item := items[i];
        TotalStep(items, i, item.product);
        if item.product !in tx {
          assert FirstFailure(stock, items, i);
          return Err(ProductNotFound);
        }
        var read := tx[item.product];
        if read.num < item.num {
          assert FirstFailure(stock, items, i);
          return Err(StockNotEnough);
        }
        TotalStepAll(items, i);
        // UPDATE ... WHERE version = read.version, writing only the selected column num
        if tx[item.product].version == read.version {
          tx := tx[item.product := tx[item.product].(num := read.num - item.num)];
        }
      }
      assert items[..|items|] == items;
      rows := tx;
      r := Ok(());
    }

    /** Reads the committed rows, not its own transaction, so a product listed twice gets only its last
        quantity back. */
    method BackStock(items: seq<Line>) returns (r: Reply<()>)
      modifies this
      ensures r.Ok? <==> AllListed(old(Nums(rows)), items)
      ensures r.Ok? ==> Nums(rows) == AddLast(old(Nums(rows)), items) && SameButNums(old(rows), rows)
      ensures r.Err? ==> rows == old(rows) && r.error == ProductNotFound
    {
      ghost var stock := Nums(rows);
      var tx := rows;
      for i := 0 to |items|
        invariant rows == old(rows)
        invariant SameButNums(rows, tx)
        invariant forall j :: 0 <= j < i ==> items[j].product in rows
        invariant forall p :: p in tx ==> tx[p].num == stock[p] + LastNum(items[..i], p)
      {
        var item := items[i];
        if item.product !in rows {
          return Err(ProductNotFound);
        }
        var read := rows[item.product];
        assert items[..i + 1][..i] == items[..i];
        tx := tx[item.product := read.(num := read.num + item.num)];
      }
      assert items[..|items|] == items;
      rows := tx;
      r := Ok(());
    }

    /** Adds to an existing row; a product without a row is refused, so the branch for a row without an
        id is only for rows that never had one. */
    method SetStock(item: Line) returns (r: Reply<()>)
      modifies this
      ensures r.Ok? <==> item.product in old(rows)
      ensures r.Err? ==> rows == old(rows) && r.error == ParamError
      ensures r.Ok? ==> SameButNums(old(rows), rows)
      ensures r.Ok? ==> forall p :: p in rows && p != item.product ==> rows[p] == old(rows)[p]
      ensures r.Ok? ==> rows[item.product].num ==
                        item.num + if old(rows)[item.product].id < 1 then 0 else old(rows)[item.product].num
    {
      if item.product !in rows {
        return Err(ParamError);
      }
      var stock := rows[item.product];
      if stock.id < 1 {
        stock := stock.(num := item.num);
      } else {
        stock := stock.(num := stock.num + item.num);
      }
      rows := rows[item.product := stock];
      r := Ok(());
    }
  }

  /** BackStock of a sold list restores the stock exactly when no product is listed twice. */
  lemma BackUndoesSellIffDistinct(stock: Stock, items: seq<Line>)
    requires Positive(items) && Sellable(stock, items)
    ensures AddLast(Subtract(stock, items), items) == stock <==> DistinctProducts(items)
  {
    var back := AddLast(Subtract(stock, items), items);
    assert forall p :: p in stock ==> back[p] == stock[p] - Total(items, p) + LastNum(items, p);
    LastIsTotalIffDistinct(items);
    if DistinctProducts(items) {
      assert forall p :: p in stock ==> LastNum(items, p) == Total(items, p);
    }
    if !DistinctProducts(items) {
      var i, j :| 0 <= i < j < |items| && items[i].product == items[j].product;
      RepeatedLastIsLess(items, i, j);
      assert Enough(stock, items, i);
      assert back[items[i].product] != stock[items[i].product];
    }
  }
}
